/**
 One execution of a batch of pod deletions against a PodProtector
 (webhook/handler/pool_adapter.go).
 */
module PoolAdapter {
  import opened Common
  import opened PodProtector
  import Quota

  // A pod deletion under review.
  datatype Item = Item(cell: CellId, uid: Uid, name: string, status: Quota.PodStatus)

  datatype ItemResult = NewDisruption | NoPpr | AlreadyUnhealthy | AlreadyHasBucket | NeedRetry | Rejected {
    // The pod may be deleted.
    predicate Admits() {
      NewDisruption? || AlreadyUnhealthy? || AlreadyHasBucket?
    }
  }

  function ToItemResult(r: Quota.Result): ItemResult {
    match r
    case Ok => NewDisruption
    case AlreadyUnhealthy => AlreadyUnhealthy
    case Retry => NeedRetry
    case Denied => Rejected
  }

  // CompactThreshold and MaxConcurrentLag after defaulting, and the CellRequiresPodName plugin.
  datatype Config = Config(compactThreshold: int, maxConcurrentLag: int, requiresPodName: (CellId, string) -> bool)

  datatype Ppr = Ppr(minAvailable: int, cells: seq<Cell>, summary: Summary)

  // ----- searching -----

  function FindCell(cells: seq<Cell>, id: CellId): (i: int)
    ensures -1 <= i < |cells|
  {
    if cells == [] then -1
    else if cells[0].id == id then 0
    else
      var i := FindCell(cells[1..], id);
      if i < 0 then -1 else i + 1
  }

  // FindCell returns the first match, or -1 when there is none.
  lemma {:induction false} FindCellFirst(cells: seq<Cell>, id: CellId, i: int)
    requires -1 <= i < |cells|
    ensures i == FindCell(cells, id) <==>
      && (i >= 0 ==> cells[i].id == id)
      && forall j :: 0 <= j < (if i < 0 then |cells| else i) ==> cells[j].id != id
  {
    if cells != [] {
      var rest := cells[1..];
      if cells[0].id != id && i != 0 {
        FindCellFirst(rest, id, if i < 0 then -1 else i - 1);
        assert forall j :: 1 <= j < |cells| ==> cells[j] == rest[j - 1];
        assert forall j :: 0 <= j < |rest| ==> rest[j] == cells[j + 1];
      }
    }
  }

  function FindUid(buckets: seq<Bucket>, uid: Uid): (i: int)
    ensures -1 <= i < |buckets|
  {
    if buckets == [] then -1
    else if buckets[0].uid == Some(uid) then 0
    else
      var i := FindUid(buckets[1..], uid);
      if i < 0 then -1 else i + 1
  }

  lemma {:induction false} FindUidFirst(buckets: seq<Bucket>, uid: Uid, i: int)
    requires -1 <= i < |buckets|
    ensures i == FindUid(buckets, uid) <==>
      && (i >= 0 ==> buckets[i].uid == Some(uid))
      && forall j :: 0 <= j < (if i < 0 then |buckets| else i) ==> buckets[j].uid != Some(uid)
  {
    if buckets != [] {
      var rest := buckets[1..];
      if buckets[0].uid != Some(uid) && i != 0 {
        FindUidFirst(rest, uid, if i < 0 then -1 else i - 1);
        assert forall j :: 1 <= j < |buckets| ==> buckets[j] == rest[j - 1];
        assert forall j :: 0 <= j < |rest| ==> rest[j] == buckets[j + 1];
      }
    }
  }

  predicate HasBucket(cells: seq<Cell>, item: Item) {
    var c := FindCell(cells, item.cell);
    c >= 0 && FindUid(cells[c].buckets, item.uid) >= 0
  }

  // ----- the two loops of tryExecute -----

  function Refresh(cells: seq<Cell>, item: Item, now: Time): seq<Cell> {
    if HasBucket(cells, item) then
      var c := FindCell(cells, item.cell);
      var b := FindUid(cells[c].buckets, item.uid);
      cells[c := cells[c].(buckets := cells[c].buckets[b := cells[c].buckets[b].(start := now)])]
    else cells
  }

  function RefreshAll(cells: seq<Cell>, args: seq<Item>, now: Time): seq<Cell> {
    if args == [] then cells
    else Refresh(RefreshAll(cells, args[..|args| - 1], now), args[|args| - 1], now)
  }

  // The positions of the requests that have no bucket yet.
  function Undetermined(cells: seq<Cell>, args: seq<Item>): (r: seq<nat>)
    ensures forall k :: 0 <= k < |r| ==> r[k] < |args|
  {
    if args == [] then []
    else
      var last := |args| - 1;
      var r := Undetermined(cells, args[..last]);
      if HasBucket(cells, args[last]) then r else r + [last]
  }

  lemma {:induction false} UndeterminedExactly(cells: seq<Cell>, args: seq<Item>)
    ensures var r := Undetermined(cells, args);
      && (forall k :: 0 <= k < |r| ==> !HasBucket(cells, args[r[k]]))
      && (forall k, l :: 0 <= k < l < |r| ==> r[k] < r[l])
      && (forall i :: 0 <= i < |args| && !HasBucket(cells, args[i]) ==> i in r)
  {
    if args != [] {
      UndeterminedExactly(cells, args[..|args| - 1]);
    }
  }

  // The verdicts from `index` on are written to the positions they belong to, and nothing else is.
  ghost predicate Answered(positions: seq<nat>, verdicts: seq<Quota.Result>, entries: seq<ItemResult>,
                           results: seq<ItemResult>, index: nat)
    requires |verdicts| == |positions| && index <= |positions|
    requires forall k :: 0 <= k < |positions| ==> positions[k] < |entries|
  {
    && |results| == |entries|
    && (forall k :: index <= k < |positions| ==> results[positions[k]] == ToItemResult(verdicts[k]))
    && (forall i :: 0 <= i < |entries| && i !in positions ==> results[i] == entries[i])
  }

  lemma AnswerStep(cells: seq<Cell>, args: seq<Item>, verdicts: seq<Quota.Result>, entries: seq<ItemResult>,
                   results: seq<ItemResult>, index: nat)
    requires |entries| == |args| && index < |Undetermined(cells, args)| == |verdicts|
    requires Answered(Undetermined(cells, args), verdicts, entries, results, index + 1)
    ensures var positions := Undetermined(cells, args);
      Answered(positions, verdicts, entries, results[positions[index] := ToItemResult(verdicts[index])], index)
  {
    UndeterminedExactly(cells, args);
  }

  function Pick(args: seq<Item>, positions: seq<nat>): (r: seq<Item>)
    requires forall k :: 0 <= k < |positions| ==> positions[k] < |args|
    ensures |r| == |positions| && forall k :: 0 <= k < |r| ==> r[k] == args[positions[k]]
  {
    if positions == [] then [] else [args[positions[0]]] + Pick(args, positions[1..])
  }

  function Statuses(items: seq<Item>): (r: seq<Quota.PodStatus>)
    ensures |r| == |items| && forall k :: 0 <= k < |r| ==> r[k] == items[k].status
  {
    if items == [] then [] else [items[0].status] + Statuses(items[1..])
  }

  function NewBucket(cfg: Config, item: Item, now: Time): Bucket {
    Bucket(now, Some(item.uid), if cfg.requiresPodName(item.cell, item.name) then item.name else "", None, None)
  }

  function AddBucket(cfg: Config, cells: seq<Cell>, item: Item, now: Time): seq<Cell> {
    var c := FindCell(cells, item.cell);
    if c < 0 then cells + [Cell(item.cell, NO_AGGREGATION, [NewBucket(cfg, item, now)])]
    else cells[c := cells[c].(buckets := cells[c].buckets + [NewBucket(cfg, item, now)])]
  }

  // Requests are judged from the latest to the earliest.
  function AdmitAll(cfg: Config, cells: seq<Cell>, t: Quota.Tally, items: seq<Item>, now: Time): seq<Cell>
    decreases |items|
  {
    if items == [] then cells
    else
      var last := |items| - 1;
      AdmitAll(cfg, AdmitOne(cfg, cells, t, items[last], now), t.After(items[last].status), items[..last], now)
  }

  function AdmitOne(cfg: Config, cells: seq<Cell>, t: Quota.Tally, item: Item, now: Time): seq<Cell> {
    if t.Verdict(item.status).ShouldDisrupt() then AddBucket(cfg, cells, item, now) else cells
  }

  lemma StatusesInit(items: seq<Item>)
    requires items != []
    ensures Statuses(items) == Statuses(items[..|items| - 1]) + [items[|items| - 1].status]
  {
    var n, rest := |items| - 1, items[..|items| - 1];
    var all, before := Statuses(items), Statuses(rest);
    assert forall k :: 0 <= k < n ==> all[k] == before[k] && all[n] == items[n].status;
    hide Statuses;
    assert all == before + [items[n].status];
  }

  // The batch is processed from its end: what the last pod leaves goes to the others.
  lemma AdmitAllLast(cfg: Config, cells: seq<Cell>, t: Quota.Tally, items: seq<Item>, now: Time)
    requires items != []
    ensures var last := |items| - 1;
      var t', after := t.After(items[last].status), AdmitOne(cfg, cells, t, items[last], now);
      && AdmitAll(cfg, cells, t, items, now) == AdmitAll(cfg, after, t', items[..last], now)
      && Quota.TallyAfter(t, Statuses(items)) == Quota.TallyAfter(t', Statuses(items[..last]))
  {
    var last := |items| - 1;
    StatusesInit(items);
    assert Statuses(items)[..last] == Statuses(items[..last]);
    hide Statuses, AdmitOne;
  }

  lemma {:induction false} AdmitAllHead(cfg: Config, cells: seq<Cell>, t: Quota.Tally, items: seq<Item>, now: Time)
    requires items != []
    ensures AdmitAll(cfg, cells, t, items, now) ==
      AdmitOne(cfg, AdmitAll(cfg, cells, t, items[1..], now),
        Quota.TallyAfter(t, Statuses(items[1..])), items[0], now)
    decreases |items|
  {
    var last := |items| - 1;
    if last > 0 {
      var rest, tail := items[..last], items[1..];
      AdmitAllLast(cfg, cells, t, items, now);
      AdmitAllLast(cfg, cells, t, tail, now);
      assert rest[1..] == tail[..last - 1] && tail[last - 1] == items[last] && rest[0] == items[0];
      hide AdmitAll, AdmitOne, Statuses, Quota.TallyAfter;
      AdmitAllHead(cfg, AdmitOne(cfg, cells, t, items[last], now), t.After(items[last].status), rest, now);
    }
  }

  // ----- one round, as a relation between the status read and the status to be written -----

  ghost function TallyOf(cfg: Config, minAvailable: int, cells: seq<Cell>): Quota.Tally {
    Quota.MakeTally(minAvailable, SummaryOf(cells), cfg.maxConcurrentLag)
  }

  function UndeterminedItems(cells: seq<Cell>, args: seq<Item>): seq<Item> {
    Pick(args, Undetermined(cells, args))
  }

  ghost function VerdictsOf(cells: seq<Cell>, t: Quota.Tally, args: seq<Item>): (r: seq<Quota.Result>)
    ensures |r| == |UndeterminedItems(cells, args)|
  {
    Quota.Verdicts(t, Statuses(UndeterminedItems(cells, args)))
  }

  // Every request got its answer.
  ghost predicate Decides(cells: seq<Cell>, t: Quota.Tally, args: seq<Item>, results: seq<ItemResult>) {
    var u := Undetermined(cells, args);
    && |results| == |args|
    && (forall i :: 0 <= i < |args| && HasBucket(cells, args[i]) ==> results[i] == AlreadyHasBucket)
    && (forall k :: 0 <= k < |u| ==> results[u[k]] == ToItemResult(VerdictsOf(cells, t, args)[k]))
  }

  // read: the status found in the cache; counted: after the first Summarize;
  // extended: after both loops; written: after the second Summarize.
  ghost predicate Round(cfg: Config, read: Ppr, args: seq<Item>, now: Time,
                        counted: seq<Cell>, extended: seq<Cell>, written: Ppr, results: seq<ItemResult>)
    requires cfg.compactThreshold >= 1
  {
    var t := TallyOf(cfg, read.minAvailable, counted);
    && CellsCompactTo(cfg.compactThreshold, read.cells, counted)
    && extended == AdmitAll(cfg, RefreshAll(counted, args, now), t, UndeterminedItems(counted, args), now)
    && Decides(counted, t, args, results)
    && CellsCompactTo(cfg.compactThreshold, extended, written.cells)
    && written.summary == SummaryOf(written.cells)
    && written.minAvailable == read.minAvailable
  }

  ghost predicate Rounds(cfg: Config, read: Ppr, args: seq<Item>, now: Time, written: Ppr, results: seq<ItemResult>)
    requires cfg.compactThreshold >= 1
  {
    exists counted, extended :: Round(cfg, read, args, now, counted, extended, written, results)
  }

  // ----- the answers of a round in terms of the cells and the pods -----

  // The pods of a cell that a criterion counts.
  function CountOfStatus(aggregation: Aggregation, c: Quota.Criterion): int {
    match c
    case Scheduled => aggregation.scheduled
    case Running => aggregation.running
    case Ready => aggregation.ready
    case _ => aggregation.available
  }

  function CountInCells(cells: seq<Cell>, c: Quota.Criterion): int {
    if cells == [] then 0 else CountOfStatus(cells[0].aggregation, c) + CountInCells(cells[1..], c)
  }

  // The admissions that the histories stand for, which the counts do not reflect yet.
  function Lag(cells: seq<Cell>): int {
    if cells == [] then 0 else BucketsLag(cells[0].buckets) + Lag(cells[1..])
  }

  function BucketsLag(buckets: seq<Bucket>): int {
    if buckets == [] then 0
    else (if buckets[0].counter.Some? then buckets[0].counter.value else 1) + BucketsLag(buckets[1..])
  }

  lemma {:induction false} BucketsLagIsAdmissions(buckets: seq<Bucket>)
    ensures BucketsLag(buckets) == Admissions(buckets)
  {
    if buckets != [] {
      BucketsLagIsAdmissions(buckets[1..]);
    }
  }

  // What the summary says of its cells.
  lemma {:induction false} SummaryCounts(cells: seq<Cell>, c: Quota.Criterion)
    ensures Quota.CountIn(SummaryOf(cells), c) == CountInCells(cells, c)
    ensures SummaryOf(cells).available - SummaryOf(cells).estimated == Lag(cells)
  {
    if cells != [] {
      SummaryCounts(cells[1..], c);
      BucketsLagIsAdmissions(cells[0].buckets);
    }
  }

  lemma {:induction false} CountsConcat(a: seq<Cell>, b: seq<Cell>, c: Quota.Criterion)
    ensures CountInCells(a + b, c) == CountInCells(a, c) + CountInCells(b, c)
    ensures Lag(a + b) == Lag(a) + Lag(b)
  {
    if a == [] {
      assert a + b == b;
    } else {
      assert (a + b)[1..] == a[1..] + b;
      CountsConcat(a[1..], b, c);
    }
  }

  lemma CountsSnoc(cells: seq<Cell>, c: Quota.Criterion, n: nat)
    requires n < |cells|
    ensures CountInCells(cells[..n + 1], c) == CountInCells(cells[..n], c) + CountOfStatus(cells[n].aggregation, c)
    ensures Lag(cells[..n + 1]) == Lag(cells[..n]) + BucketsLag(cells[n].buckets)
  {
    assert cells[..n + 1] == cells[..n] + [cells[n]];
    CountsConcat(cells[..n], [cells[n]], c);
  }

  // The reviews from i on that are let go without having a bucket, of pods that c counts.
  ghost function LetGo(args: seq<Item>, results: seq<ItemResult>, c: Quota.Criterion, i: nat): set<nat>
    requires |results| == |args|
  {
    set j: nat |
      && i <= j < |args| && (results[j].NewDisruption? || results[j].AlreadyUnhealthy?)
      && Quota.HasStatus(args[j].status, c)
  }

  // The answer to a review when its criterion still counts `left` pods and there are `lag` admissions not reflected.
  function AnswerFor(cfg: Config, minAvailable: int, lag: int, left: int, hasBucket: bool, counted: bool): ItemResult {
    if hasBucket then AlreadyHasBucket
    else if cfg.maxConcurrentLag != 0 && lag == cfg.maxConcurrentLag then NeedRetry
    else if !counted then AlreadyUnhealthy
    else if left <= minAvailable then Rejected
    else if left <= minAvailable + lag then NeedRetry
    else NewDisruption
  }

  // The answer to review i from the cells it is judged by and the answers to the reviews after it.
  ghost predicate AnsweredByCounts(cfg: Config, minAvailable: int, cells: seq<Cell>, args: seq<Item>,
                                   results: seq<ItemResult>, i: nat)
    requires i < |results| == |args|
  {
    var c := args[i].status.criterion;
    var left := CountInCells(cells, c) - |LetGo(args, results, c, i + 1)|;
    results[i] ==
      AnswerFor(cfg, minAvailable, Lag(cells), left, HasBucket(cells, args[i]), Quota.HasStatus(args[i].status, c))
  }

  // The reviews that have no bucket.
  function Bucketless(cells: seq<Cell>, args: seq<Item>): seq<Item> {
    if args == [] then []
    else if HasBucket(cells, args[0]) then Bucketless(cells, args[1..])
    else [args[0]] + Bucketless(cells, args[1..])
  }

  lemma {:induction false} BucketlessSnoc(cells: seq<Cell>, args: seq<Item>, x: Item)
    ensures Bucketless(cells, args + [x]) == Bucketless(cells, args) + if HasBucket(cells, x) then [] else [x]
  {
    if args == [] {
      assert [] + [x] == [x];
    } else {
      assert (args + [x])[1..] == args[1..] + [x];
      BucketlessSnoc(cells, args[1..], x);
    }
  }

  lemma {:induction false} PickSnoc(args: seq<Item>, positions: seq<nat>, k: nat)
    requires k < |args| && forall j :: 0 <= j < |positions| ==> positions[j] < k
    ensures Pick(args, positions + [k]) == Pick(args[..k], positions) + [args[k]]
  {
  }

  lemma {:induction false} UndeterminedAreBucketless(cells: seq<Cell>, args: seq<Item>)
    ensures UndeterminedItems(cells, args) == Bucketless(cells, args)
  {
    if args != [] {
      var last := |args| - 1;
      UndeterminedAreBucketless(cells, args[..last]);
      assert args == args[..last] + [args[last]];
      BucketlessSnoc(cells, args[..last], args[last]);
      var u := Undetermined(cells, args[..last]);
      PickSnoc(args, u, last);
      assert Pick(args, u) == Pick(args[..last], u);
    }
  }

  // After an undetermined review come those of the rest of the batch.
  ghost predicate Continues(cells: seq<Cell>, args: seq<Item>, items: seq<Item>, k: nat, i: nat)
    requires i < |args|
  {
    k < |items| && items[k] == args[i] && items[k + 1..] == Bucketless(cells, args[i + 1..])
  }

  lemma ContinuesSnoc(cells: seq<Cell>, rest: seq<Item>, items: seq<Item>, x: Item, k: nat, i: nat)
    requires i < |rest| && Continues(cells, rest, items, k, i)
    ensures Continues(cells, rest + [x], items + if HasBucket(cells, x) then [] else [x], k, i)
  {
    var more := if HasBucket(cells, x) then [] else [x];
    assert (rest + [x])[i + 1..] == rest[i + 1..] + [x];
    assert (items + more)[k + 1..] == items[k + 1..] + more;
    BucketlessSnoc(cells, rest[i + 1..], x);
    hide Bucketless, HasBucket;
  }

  lemma {:induction false} AfterUndetermined(cells: seq<Cell>, args: seq<Item>, k: nat)
    requires k < |Undetermined(cells, args)|
    ensures Continues(cells, args, Bucketless(cells, args), k, Undetermined(cells, args)[k])
  {
    var last := |args| - 1;
    var rest, x := args[..last], args[last];
    var before, items := Undetermined(cells, rest), Bucketless(cells, rest);
    assert args == rest + [x];
    UndeterminedAreBucketless(cells, rest);
    assert |before| == |items|;
    BucketlessSnoc(cells, rest, x);
    BucketlessNone(cells, args[last + 1..]);
    assert Undetermined(cells, args) == if HasBucket(cells, x) then before else before + [last];
    hide Undetermined, Bucketless, HasBucket;
    if k < |before| {
      AfterUndetermined(cells, rest, k);
      hide Continues;
      ContinuesSnoc(cells, rest, items, x, k, before[k]);
    }
  }

  lemma BucketlessNone(cells: seq<Cell>, args: seq<Item>)
    requires args == []
    ensures Bucketless(cells, args) == []
  {
  }

  // The tally in which review i would be judged.
  ghost function TallyAt(cells: seq<Cell>, t: Quota.Tally, args: seq<Item>, i: nat): Quota.Tally
    requires i <= |args|
  {
    Quota.TallyAfter(t, Statuses(Bucketless(cells, args[i..])))
  }

  lemma AnswerAt(cells: seq<Cell>, t: Quota.Tally, args: seq<Item>, results: seq<ItemResult>, i: nat)
    requires Decides(cells, t, args, results) && i < |args|
    ensures HasBucket(cells, args[i]) ==>
      results[i] == AlreadyHasBucket && TallyAt(cells, t, args, i) == TallyAt(cells, t, args, i + 1)
    ensures !HasBucket(cells, args[i]) ==>
      var before := TallyAt(cells, t, args, i + 1);
      && results[i] == ToItemResult(before.Verdict(args[i].status))
      && TallyAt(cells, t, args, i) == before.After(args[i].status)
  {
    assert args[i..][1..] == args[i + 1..];
    var items := Bucketless(cells, args[i..]);
    if !HasBucket(cells, args[i]) {
      UndeterminedExactly(cells, args);
      var u := Undetermined(cells, args);
      var k :| 0 <= k < |u| && u[k] == i;
      AnswerOfUndetermined(cells, t, args, results, k);
      assert items == [args[i]] + Bucketless(cells, args[i + 1..]);
      Quota.TallyAfterHead(t, Statuses(items));
      assert Statuses(items)[1..] == Statuses(items[1..]);
    }
  }

  lemma AnswerOfUndetermined(cells: seq<Cell>, t: Quota.Tally, args: seq<Item>, results: seq<ItemResult>, k: nat)
    requires Decides(cells, t, args, results) && k < |Undetermined(cells, args)|
    ensures var i := Undetermined(cells, args)[k];
      results[i] == ToItemResult(TallyAt(cells, t, args, i + 1).Verdict(args[i].status))
  {
    hide *;
    var i, items := Undetermined(cells, args)[k], Bucketless(cells, args);
    DecidesAt(cells, t, args, results, k);
    VerdictsOfBucketless(cells, t, args);
    AfterUndetermined(cells, args, k);
    ContinuesAt(cells, args, items, k, i);
    VerdictOfItem(t, items, k);
    assert TallyAt(cells, t, args, i + 1) == Quota.TallyAfter(t, Statuses(items[k + 1..])) by {
      ContinuesTally(cells, t, args, items, k, i);
    }
  }

  lemma DecidesAt(cells: seq<Cell>, t: Quota.Tally, args: seq<Item>, results: seq<ItemResult>, k: nat)
    requires Decides(cells, t, args, results) && k < |Undetermined(cells, args)|
    ensures |results| == |args| && k < |VerdictsOf(cells, t, args)|
    ensures results[Undetermined(cells, args)[k]] == ToItemResult(VerdictsOf(cells, t, args)[k])
  {
    hide Undetermined, VerdictsOf, HasBucket, ToItemResult;
  }

  lemma VerdictsOfBucketless(cells: seq<Cell>, t: Quota.Tally, args: seq<Item>)
    ensures VerdictsOf(cells, t, args) == Quota.Verdicts(t, Statuses(Bucketless(cells, args)))
  {
    hide Undetermined, Bucketless, Statuses, Quota.Verdicts, Pick, UndeterminedItems;
    UndeterminedAreBucketless(cells, args);
  }

  lemma ContinuesAt(cells: seq<Cell>, args: seq<Item>, items: seq<Item>, k: nat, i: nat)
    requires i < |args| && Continues(cells, args, items, k, i)
    ensures k < |items| && items[k] == args[i]
  {
  }

  lemma ContinuesTally(cells: seq<Cell>, t: Quota.Tally, args: seq<Item>, items: seq<Item>, k: nat, i: nat)
    requires i < |args| && Continues(cells, args, items, k, i)
    ensures TallyAt(cells, t, args, i + 1) == Quota.TallyAfter(t, Statuses(items[k + 1..]))
  {
    hide Bucketless, Statuses, Quota.TallyAfter;
  }

  lemma VerdictOfItem(t: Quota.Tally, items: seq<Item>, k: nat)
    requires k < |items|
    ensures Quota.Verdicts(t, Statuses(items))[k] ==
      Quota.TallyAfter(t, Statuses(items[k + 1..])).Verdict(items[k].status)
  {
    Quota.VerdictAt(t, Statuses(items), k);
    hide Statuses, Quota.TallyAfter, Quota.Verdicts, t.Verdict;
    StatusesDrop(items, k + 1);
  }

  lemma StatusesDrop(items: seq<Item>, n: nat)
    requires n <= |items|
    ensures Statuses(items)[n..] == Statuses(items[n..])
  {
    var all, rest := Statuses(items), Statuses(items[n..]);
    hide *;
    forall i | 0 <= i < |rest| ensures all[n..][i] == rest[i] {
      assert all[n + i] == items[n + i].status && items[n..][i] == items[n + i];
    }
  }

  lemma LetGoHead(args: seq<Item>, results: seq<ItemResult>, c: Quota.Criterion, i: nat)
    requires i < |results| == |args|
    ensures |LetGo(args, results, c, i)| ==
      |LetGo(args, results, c, i + 1)| +
        if (results[i].NewDisruption? || results[i].AlreadyUnhealthy?) && Quota.HasStatus(args[i].status, c) then 1
        else 0
  {
    var taken := (results[i].NewDisruption? || results[i].AlreadyUnhealthy?) && Quota.HasStatus(args[i].status, c);
    var own := if taken then {i} else {};
    assert LetGo(args, results, c, i) == own + LetGo(args, results, c, i + 1);
  }

  lemma {:induction false} TallyAtCounts(cells: seq<Cell>, t: Quota.Tally, args: seq<Item>, results: seq<ItemResult>,
                                         c: Quota.Criterion, i: nat)
    requires Decides(cells, t, args, results) && i <= |args|
    ensures TallyAt(cells, t, args, i).Count(c) == t.Count(c) - |LetGo(args, results, c, i)|
    ensures TallyAt(cells, t, args, i).threshold == t.threshold
    decreases |args| - i
  {
    if i == |args| {
      assert args[i..] == [] && LetGo(args, results, c, i) == {};
    } else {
      TallyAtCounts(cells, t, args, results, c, i + 1);
      LetGoHead(args, results, c, i);
      AnswerAt(cells, t, args, results, i);
      hide Decides, TallyAt, LetGo, HasBucket;
    }
  }

  // In every round, each answer is the one that the counts and the answers after it determine.
  lemma AnsweredExactly(cfg: Config, minAvailable: int, cells: seq<Cell>, args: seq<Item>, results: seq<ItemResult>,
                        i: nat)
    requires Decides(cells, TallyOf(cfg, minAvailable, cells), args, results) && i < |args|
    ensures AnsweredByCounts(cfg, minAvailable, cells, args, results, i)
  {
    var t, c := TallyOf(cfg, minAvailable, cells), args[i].status.criterion;
    AnswerAt(cells, t, args, results, i);
    TallyAtCounts(cells, t, args, results, c, i + 1);
    SummaryCounts(cells, c);
    var before := TallyAt(cells, t, args, i + 1);
    hide Decides, TallyAt, LetGo, HasBucket, SummaryOf, CountInCells, Lag;
    Quota.VerdictMeans(before, args[i].status);
    Quota.TallyMeans(minAvailable, SummaryOf(cells), cfg.maxConcurrentLag, c);
    hide Quota.CountIn, Quota.MakeTally, before.Verdict, before.Count;
  }

  // Reviews without a bucket are all judged by c.
  ghost predicate AllJudgedBy(cells: seq<Cell>, args: seq<Item>, c: Quota.Criterion) {
    forall i :: 0 <= i < |args| && !HasBucket(cells, args[i]) ==>
      Quota.Judged(args[i].status.criterion) == Quota.Judged(c)
  }

  // Those among them from i on whose pods c counts.
  ghost function Contributing(cells: seq<Cell>, args: seq<Item>, c: Quota.Criterion, i: nat): set<nat> {
    set j: nat | i <= j < |args| && !HasBucket(cells, args[j]) && Quota.HasStatus(args[j].status, c)
  }

  lemma ContributingHead(cells: seq<Cell>, args: seq<Item>, c: Quota.Criterion, i: nat)
    requires i < |args|
    ensures |Contributing(cells, args, c, i)| == |Contributing(cells, args, c, i + 1)| +
      if !HasBucket(cells, args[i]) && Quota.HasStatus(args[i].status, c) then 1 else 0
  {
    hide HasBucket;
    var own := if !HasBucket(cells, args[i]) && Quota.HasStatus(args[i].status, c) then {i} else {};
    assert Contributing(cells, args, c, i) == own + Contributing(cells, args, c, i + 1);
  }

  ghost predicate AllAnswered(cfg: Config, minAvailable: int, cells: seq<Cell>, args: seq<Item>,
                              results: seq<ItemResult>)
    requires |results| == |args|
  {
    forall i :: 0 <= i < |args| ==> AnsweredByCounts(cfg, minAvailable, cells, args, results, i)
  }

  // All answers are determined by the cells read, after compaction, and the batch.
  ghost predicate AnsweredFrom(cfg: Config, read: Ppr, args: seq<Item>, results: seq<ItemResult>)
    requires cfg.compactThreshold >= 1
  {
    && |results| == |args|
    && exists counted ::
      CellsCompactTo(cfg.compactThreshold, read.cells, counted) &&
      AllAnswered(cfg, read.minAvailable, counted, args, results)
  }

  lemma RoundAnswers(cfg: Config, read: Ppr, args: seq<Item>, counted: seq<Cell>, results: seq<ItemResult>)
    requires cfg.compactThreshold >= 1 && CellsCompactTo(cfg.compactThreshold, read.cells, counted)
    requires Decides(counted, TallyOf(cfg, read.minAvailable, counted), args, results)
    ensures AnsweredFrom(cfg, read, args, results)
  {
    assert |results| == |args|;
    forall i | 0 <= i < |args| ensures AnsweredByCounts(cfg, read.minAvailable, counted, args, results, i) {
      AnsweredExactly(cfg, read.minAvailable, counted, args, results, i);
    }
    hide Decides, AnsweredByCounts, CellsCompactTo, TallyOf;
    assert AllAnswered(cfg, read.minAvailable, counted, args, results);
  }

  // The admissions that the count of c leaves room for, unless the budget is used up.
  function RoomFor(cfg: Config, minAvailable: int, cells: seq<Cell>, c: Quota.Criterion): nat {
    if cfg.maxConcurrentLag != 0 && Lag(cells) == cfg.maxConcurrentLag then 0
    else Max(0, CountInCells(cells, c) - minAvailable - Max(0, Lag(cells)))
  }

  // The answer to a review without a bucket when all those are judged by c: in particular the pods newly admitted are
  // those of the last RoomFor contributing reviews.
  ghost predicate AnsweredUnderOne(cfg: Config, minAvailable: int, cells: seq<Cell>, args: seq<Item>,
                                   results: seq<ItemResult>, c: Quota.Criterion, i: nat)
    requires i < |results| == |args|
  {
    var lag, count := Lag(cells), CountInCells(cells, c);
    results[i] ==
      if cfg.maxConcurrentLag != 0 && lag == cfg.maxConcurrentLag then NeedRetry
      else if !Quota.HasStatus(args[i].status, c) then AlreadyUnhealthy
      else if |Contributing(cells, args, c, i + 1)| < RoomFor(cfg, minAvailable, cells, c) then NewDisruption
      else if Min(count, minAvailable + Max(0, lag)) <= minAvailable then Rejected
      else NeedRetry
  }

  lemma OneAnswer(cfg: Config, minAvailable: int, cells: seq<Cell>, args: seq<Item>, results: seq<ItemResult>,
                  c: Quota.Criterion, i: nat)
    requires i < |results| == |args| && AnsweredByCounts(cfg, minAvailable, cells, args, results, i)
    requires !HasBucket(cells, args[i]) ==> Quota.Judged(args[i].status.criterion) == Quota.Judged(c)
    requires |LetGo(args, results, c, i + 1)| ==
      Min(|Contributing(cells, args, c, i + 1)|, RoomFor(cfg, minAvailable, cells, c))
    ensures !HasBucket(cells, args[i]) ==> AnsweredUnderOne(cfg, minAvailable, cells, args, results, c, i)
    ensures |LetGo(args, results, c, i)| ==
      Min(|Contributing(cells, args, c, i)|, RoomFor(cfg, minAvailable, cells, c))
  {
    LetGoHead(args, results, c, i);
    ContributingHead(cells, args, c, i);
    var own := args[i].status.criterion;
    if !HasBucket(cells, args[i]) {
      SameJudge(cells, args, results, own, c, i);
    }
    hide HasBucket, LetGo, Contributing, CountInCells, Lag;
  }

  lemma SameJudge(cells: seq<Cell>, args: seq<Item>, results: seq<ItemResult>, a: Quota.Criterion, b: Quota.Criterion,
                  i: nat)
    requires i < |results| == |args| && Quota.Judged(a) == Quota.Judged(b)
    ensures Quota.HasStatus(args[i].status, a) == Quota.HasStatus(args[i].status, b)
    ensures LetGo(args, results, a, i + 1) == LetGo(args, results, b, i + 1)
    ensures CountInCells(cells, a) == CountInCells(cells, b)
  {
    SameCount(cells, a, b);
  }

  lemma {:induction false} SameCount(cells: seq<Cell>, a: Quota.Criterion, b: Quota.Criterion)
    requires Quota.Judged(a) == Quota.Judged(b)
    ensures CountInCells(cells, a) == CountInCells(cells, b)
  {
    if cells != [] {
      SameCount(cells[1..], a, b);
    }
  }

  lemma {:induction false} LetGoUnderOne(cfg: Config, minAvailable: int, cells: seq<Cell>, args: seq<Item>,
                                         results: seq<ItemResult>, c: Quota.Criterion, i: nat)
    requires i <= |results| == |args| && AllAnswered(cfg, minAvailable, cells, args, results)
    requires AllJudgedBy(cells, args, c)
    ensures |LetGo(args, results, c, i)| ==
      Min(|Contributing(cells, args, c, i)|, RoomFor(cfg, minAvailable, cells, c))
    decreases |args| - i
  {
    if i == |args| {
      assert LetGo(args, results, c, i) == {} && Contributing(cells, args, c, i) == {};
    } else {
      hide LetGo, Contributing, HasBucket, AnsweredByCounts, RoomFor;
      LetGoUnderOne(cfg, minAvailable, cells, args, results, c, i + 1);
      OneAnswer(cfg, minAvailable, cells, args, results, c, i);
    }
  }

  lemma AnsweredUnderOneExactly(cfg: Config, minAvailable: int, cells: seq<Cell>, args: seq<Item>,
                                results: seq<ItemResult>, c: Quota.Criterion, i: nat)
    requires i < |results| == |args| && AllAnswered(cfg, minAvailable, cells, args, results)
    requires AllJudgedBy(cells, args, c) && !HasBucket(cells, args[i])
    ensures AnsweredUnderOne(cfg, minAvailable, cells, args, results, c, i)
  {
    LetGoUnderOne(cfg, minAvailable, cells, args, results, c, i + 1);
    hide LetGo, Contributing, HasBucket, AnsweredByCounts, RoomFor, AnsweredUnderOne;
    OneAnswer(cfg, minAvailable, cells, args, results, c, i);
  }

  // ----- the stored object, updated by compare-and-swap on its resource version -----

  datatype UpdateOutcome = Updated | Conflict | Unavailable

  class ApiServer {
    var version: nat
    var stored: Ppr

    // `reachable` is false when the call fails for any reason but a conflict.
    method UpdateStatus(base: nat, cells: seq<Cell>, summary: Summary, reachable: bool) returns (outcome: UpdateOutcome)
      modifies this
      ensures outcome == (if !reachable then Unavailable else if base != old(version) then Conflict else Updated)
      ensures outcome != Updated ==> version == old(version) && stored == old(stored)
      ensures outcome == Updated ==>
        version == old(version) + 1 && stored == old(stored).(cells := cells, summary := summary)
    {
      if !reachable {
        return Unavailable;
      }
      if base != version {
        return Conflict;
      }
      version, stored := version + 1, stored.(cells := cells, summary := summary);
      return Updated;
    }
  }

  // What the informer cache answers; the version may be older than the stored one.
  datatype Lookup = LookupFailed | Absent | Found(version: nat, ppr: Ppr)

  datatype ExecuteResult = Success(results: seq<ItemResult>) | RetryLater | Failed

  // The effect of one execution on the API server, and its answer.
  ghost predicate Executes(cfg: Config, lookup: Lookup, args: seq<Item>, now: Time, reachable: bool,
                           version: nat, stored: Ppr, version': nat, stored': Ppr, result: ExecuteResult)
    requires cfg.compactThreshold >= 1
  {
    match lookup
    case LookupFailed => result == Failed && version' == version && stored' == stored
    case Absent =>
      && result == Success(seq(|args|, _ => NoPpr)) && version' == version && stored' == stored
    case Found(base, read) =>
      exists written, results ::
        && Rounds(cfg, read, args, now, written, results)
        && if written == read then
             result == Success(results) && version' == version && stored' == stored
           else if !reachable then
             result == Failed && version' == version && stored' == stored
           else if base != version then
             result == RetryLater && version' == version && stored' == stored
           else
             && result == Success(results)
             && version' == version + 1
             && stored' == stored.(cells := written.cells, summary := written.summary)
  }

  method TryExecute(cfg: Config, server: ApiServer, lookup: Lookup, args: seq<Item>, now: Time, reachable: bool)
    returns (result: ExecuteResult)
    requires cfg.compactThreshold >= 1
    requires lookup.Found? ==> CellsWellFormed(lookup.ppr.cells)
    modifies server
    ensures Executes(cfg, lookup, args, now, reachable,
                     old(server.version), old(server.stored), server.version, server.stored, result)
    ensures lookup.Found? && result.Success? ==> AnsweredFrom(cfg, lookup.ppr, args, result.results)
    ensures lookup.LookupFailed? ==> result == Failed
    ensures lookup.Absent? ==>
      result.Success? && |result.results| == |args| && forall r :: r in result.results ==> r == NoPpr
    ensures result == RetryLater ==> lookup.Found? && reachable && lookup.version != server.version
    ensures result == Failed ==> lookup.LookupFailed? || !reachable
    ensures server.version == old(server.version) ==> server.stored == old(server.stored)
    ensures server.version != old(server.version) ==>
      && server.version == old(server.version) + 1 && lookup.Found? && lookup.version == old(server.version)
      && result.Success? && server.stored.minAvailable == old(server.stored.minAvailable)
  {
    hide AnsweredFrom, Rounds;
    match lookup
    case LookupFailed =>
      return Failed;
    case Absent =>
      return Success(seq(|args|, _ => NoPpr));
    case Found(base, read) =>
      var written, results := ComputeRound(cfg, read, args, now);
      if written != read {
        var outcome := server.UpdateStatus(base, written.cells, written.summary, reachable);
        if outcome == Conflict {
          return RetryLater;
        } else if outcome == Unavailable {
          return Failed;
        }
      }
      return Success(results);
  }

  // Both loops together answer every request.
  lemma AllDecided(cells: seq<Cell>, t: Quota.Tally, args: seq<Item>, entries: seq<ItemResult>,
                   results: seq<ItemResult>)
    requires |entries| == |args|
    requires forall i :: 0 <= i < |args| && HasBucket(cells, args[i]) ==> entries[i] == AlreadyHasBucket
    requires var u := Undetermined(cells, args);
      if u == [] then results == entries else Answered(u, VerdictsOf(cells, t, args), entries, results, 0)
    ensures Decides(cells, t, args, results)
  {
    UndeterminedExactly(cells, args);
    hide Undetermined, VerdictsOf, HasBucket;
  }

  // The part of tryExecute that works on the local copy.
  method ComputeRound(cfg: Config, read: Ppr, args: seq<Item>, now: Time)
    returns (written: Ppr, results: seq<ItemResult>)
    requires cfg.compactThreshold >= 1 && CellsWellFormed(read.cells)
    ensures Rounds(cfg, read, args, now, written, results) && AnsweredFrom(cfg, read, args, results)
  {
    hide Decides, Answered, AnsweredFrom, HasBucket, RefreshAll, VerdictsOf, CellsCompactTo, SummaryOf;
    var ppr := new StatusObject(read.minAvailable, read.cells, read.summary);
    ppr.Summarize(cfg.compactThreshold);
    ghost var counted := ppr.cells;
    CompactionKeepsWellFormed(cfg.compactThreshold, read.cells, counted);
    ghost var t := TallyOf(cfg, read.minAvailable, counted);

    var undetermined;
    results, undetermined := RefreshLoop(ppr, args, now);
    ghost var entries := results;
    if |undetermined| > 0 {
      results := AdmitLoop(cfg, ppr, args, undetermined, results, now, counted);
    }
    ghost var extended := ppr.cells;
    AllDecided(counted, t, args, entries, results);
    ExtendedWellFormed(cfg, counted, t, args, now);
    ppr.Summarize(cfg.compactThreshold);

    written := Ppr(read.minAvailable, ppr.cells, ppr.summary);
    RoundAnswers(cfg, read, args, counted, results);
    assert Round(cfg, read, args, now, counted, extended, written, results);
  }

  // The first loop: a request that already has a bucket refreshes it, the others stay undetermined.
  method RefreshLoop(ppr: StatusObject, args: seq<Item>, now: Time)
    returns (results: seq<ItemResult>, undetermined: seq<nat>)
    modifies ppr`cells
    ensures |results| == |args|
    ensures ppr.cells == RefreshAll(old(ppr.cells), args, now)
    ensures undetermined == Undetermined(old(ppr.cells), args)
    ensures forall i :: 0 <= i < |args| && HasBucket(old(ppr.cells), args[i]) ==> results[i] == AlreadyHasBucket
  {
    ghost var start := ppr.cells;
    results := seq(|args|, _ => Rejected);
    undetermined := [];
    for argIndex := 0 to |args|
      invariant |results| == |args|
      invariant ppr.cells == RefreshAll(start, args[..argIndex], now)
      invariant undetermined == Undetermined(start, args[..argIndex])
      invariant forall i :: 0 <= i < argIndex && HasBucket(start, args[i]) ==> results[i] == AlreadyHasBucket
    {
      RefreshStep(start, args, argIndex, now);
      var duplicate := RefreshBucket(ppr, args[argIndex], now);
      if duplicate {
        results := results[argIndex := AlreadyHasBucket];
      } else {
        undetermined := undetermined + [argIndex];
      }
    }
    assert args[..|args|] == args;
  }

  method RefreshBucket(ppr: StatusObject, arg: Item, now: Time) returns (duplicate: bool)
    modifies ppr`cells
    ensures duplicate == HasBucket(old(ppr.cells), arg)
    ensures ppr.cells == Refresh(old(ppr.cells), arg, now)
  {
    var cellIndex := FindCell(ppr.cells, arg.cell);
    if cellIndex != -1 {
      var cell := ppr.cells[cellIndex];
      var bucketIndex := FindUid(cell.buckets, arg.uid);
      if bucketIndex != -1 {
        var bucket := cell.buckets[bucketIndex].(start := now);
        ppr.cells := ppr.cells[cellIndex := cell.(buckets := cell.buckets[bucketIndex := bucket])];
        return true;
      }
    }
    return false;
  }

  lemma RefreshStep(cells: seq<Cell>, args: seq<Item>, i: nat, now: Time)
    requires i < |args|
    ensures var refreshed := RefreshAll(cells, args[..i], now);
      && RefreshAll(cells, args[..i + 1], now) == Refresh(refreshed, args[i], now)
      && HasBucket(refreshed, args[i]) == HasBucket(cells, args[i])
    ensures Undetermined(cells, args[..i + 1]) ==
      Undetermined(cells, args[..i]) + if HasBucket(cells, args[i]) then [] else [i]
  {
    assert args[..i + 1][..i] == args[..i];
    RefreshAllKeepsUids(cells, args[..i], now);
    SameUidsSameBuckets(cells, RefreshAll(cells, args[..i], now), args[i]);
  }

  // The second loop: the quota decides the undetermined requests, latest first.
  method AdmitLoop(cfg: Config, ppr: StatusObject, args: seq<Item>, undetermined: seq<nat>,
                   entries: seq<ItemResult>, now: Time, ghost counted: seq<Cell>)
    returns (results: seq<ItemResult>)
    requires |entries| == |args|
    requires undetermined == Undetermined(counted, args)
    requires ppr.summary == SummaryOf(counted)
    modifies ppr`cells
    ensures var t := TallyOf(cfg, ppr.minAvailable, counted);
      && ppr.cells == AdmitAll(cfg, old(ppr.cells), t, UndeterminedItems(counted, args), now)
      && Answered(undetermined, VerdictsOf(counted, t, args), entries, results, 0)
  {
    ghost var start := ppr.cells;
    var state := new Quota.State.MakeState(ppr.minAvailable, ppr.summary, cfg.maxConcurrentLag);
    ghost var t := state.Value();
    var items := Pick(args, undetermined);
    ghost var verdicts := VerdictsOf(counted, t, args);
    var index := |items|;
    results := entries;
    while index > 0
      invariant 0 <= index <= |items| && fresh(state)
      invariant state.Value() == Quota.TallyAfter(t, Statuses(items)[index..])
      invariant ppr.cells == AdmitAll(cfg, start, t, items[index..], now)
      invariant Answered(undetermined, verdicts, entries, results, index)
    {
      index := index - 1;
      AdmitStep(cfg, start, t, items, index, now);
      AnswerStep(counted, args, verdicts, entries, results, index);
      var admitResult := AdmitItem(cfg, ppr, state, items[index], now);
      results := results[undetermined[index] := ToItemResult(admitResult)];
    }
    assert items[0..] == items;
  }

  method AdmitItem(cfg: Config, ppr: StatusObject, state: Quota.State, item: Item, now: Time)
    returns (admitResult: Quota.Result)
    modifies ppr`cells, state
    ensures admitResult == old(state.Value()).Verdict(item.status)
    ensures state.Value() == old(state.Value()).After(item.status)
    ensures ppr.cells == AdmitOne(cfg, old(ppr.cells), old(state.Value()), item, now)
  {
    admitResult := state.AdmitBatchItem(item.status);
    if admitResult.ShouldDisrupt() {
      var c := FindCell(ppr.cells, item.cell);
      if c == -1 {
        c := |ppr.cells|;
        ppr.cells := ppr.cells + [Cell(item.cell, NO_AGGREGATION, [])];
      }
      var cell := ppr.cells[c];
      ppr.cells := ppr.cells[c := cell.(buckets := cell.buckets + [NewBucket(cfg, item, now)])];
      assert [] + [NewBucket(cfg, item, now)] == [NewBucket(cfg, item, now)];
    }
  }

  lemma AdmitStep(cfg: Config, cells: seq<Cell>, t: Quota.Tally, items: seq<Item>, i: nat, now: Time)
    requires i < |items|
    ensures var before := Quota.TallyAfter(t, Statuses(items)[i + 1..]);
      && Quota.TallyAfter(t, Statuses(items)[i..]) == before.After(items[i].status)
      && Quota.Verdicts(t, Statuses(items))[i] == before.Verdict(items[i].status)
      && AdmitAll(cfg, cells, t, items[i..], now) ==
         AdmitOne(cfg, AdmitAll(cfg, cells, t, items[i + 1..], now), before, items[i], now)
  {
    var pods := Statuses(items);
    Quota.VerdictAt(t, pods, i);
    Quota.TallyAfterHead(t, pods[i..]);
    AdmitAllHead(cfg, cells, t, items[i..], now);
    assert pods[i..][1..] == pods[i + 1..] && items[i..][1..] == items[i + 1..];
    StatusesDrop(items, i + 1);
  }

  // ----- well-formedness and identities of buckets -----

  lemma CompactionKeepsWellFormed(threshold: int, before: seq<Cell>, after: seq<Cell>)
    requires threshold >= 1 && CellsWellFormed(before) && CellsCompactTo(threshold, before, after)
    ensures CellsWellFormed(after)
  {
    forall i | 0 <= i < |after| ensures AllWellFormed(after[i].buckets) {
      assert CellCompactsTo(threshold, before[i], after[i]);
      var sorted :| SortOf(before[i].buckets, sorted) && after[i].buckets == CompactSorted(threshold, sorted);
      CompactionKeepsNewest(threshold, before[i].buckets, sorted);
    }
  }

  lemma {:induction false} RefreshAllWellFormed(cells: seq<Cell>, args: seq<Item>, now: Time)
    requires CellsWellFormed(cells)
    ensures CellsWellFormed(RefreshAll(cells, args, now))
  {
    if args != [] {
      var before, item := RefreshAll(cells, args[..|args| - 1], now), args[|args| - 1];
      RefreshAllWellFormed(cells, args[..|args| - 1], now);
      if HasBucket(before, item) {
        var c := FindCell(before, item.cell);
        var b := FindUid(before[c].buckets, item.uid);
        assert before[c].buckets[b] in multiset(before[c].buckets);
        MultisetOfUpdate(before[c].buckets, b, before[c].buckets[b].(start := now));
      }
    }
  }

  lemma {:induction false} AdmitAllWellFormed(cfg: Config, cells: seq<Cell>, t: Quota.Tally, items: seq<Item>,
                                              now: Time)
    requires CellsWellFormed(cells)
    ensures CellsWellFormed(AdmitAll(cfg, cells, t, items, now))
    decreases |items|
  {
    if items != [] {
      var last := |items| - 1;
      AdmitAllWellFormed(cfg, AdmitOne(cfg, cells, t, items[last], now), t.After(items[last].status), items[..last],
                         now);
    }
  }

  lemma ExtendedWellFormed(cfg: Config, cells: seq<Cell>, t: Quota.Tally, args: seq<Item>, now: Time)
    requires CellsWellFormed(cells)
    ensures CellsWellFormed(AdmitAll(cfg, RefreshAll(cells, args, now), t, UndeterminedItems(cells, args), now))
  {
    RefreshAllWellFormed(cells, args, now);
    AdmitAllWellFormed(cfg, RefreshAll(cells, args, now), t, UndeterminedItems(cells, args), now);
  }

  // b differs from a in start times only.
  ghost predicate SameButStart(a: seq<Cell>, b: seq<Cell>) {
    && |a| == |b|
    && forall i :: 0 <= i < |a| ==>
      && a[i].id == b[i].id && a[i].aggregation == b[i].aggregation
      && |a[i].buckets| == |b[i].buckets|
      && forall j :: 0 <= j < |a[i].buckets| ==> b[i].buckets[j] == a[i].buckets[j].(start := b[i].buckets[j].start)
  }

  lemma {:induction false} RefreshAllKeepsUids(cells: seq<Cell>, args: seq<Item>, now: Time)
    ensures SameButStart(cells, RefreshAll(cells, args, now))
  {
    if args != [] {
      RefreshAllKeepsUids(cells, args[..|args| - 1], now);
    }
  }

  lemma SameUidsSameBuckets(a: seq<Cell>, b: seq<Cell>, item: Item)
    requires SameButStart(a, b)
    ensures FindCell(a, item.cell) == FindCell(b, item.cell)
    ensures HasBucket(a, item) == HasBucket(b, item)
  {
    var c := FindCell(a, item.cell);
    FindCellFirst(a, item.cell, c);
    FindCellFirst(b, item.cell, c);
    if c >= 0 {
      FindUidFirst(b[c].buckets, item.uid, FindUid(a[c].buckets, item.uid));
      FindUidFirst(a[c].buckets, item.uid, FindUid(a[c].buckets, item.uid));
    }
  }
}
