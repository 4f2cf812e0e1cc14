/**
 The aggregator of one cell: it writes what its informers see of the pods of the cell and drops
 the admission buckets that this view already reflects (aggregator/aggregator/controller.go,
 aggregator/aggregator/next_event_pool.go).
 */
module Aggregator {
  import opened Common
  import opened PodProtector
  import opened PoolAdapter
  import Quota

  type Key = string

  // ----- the pool of protectors to reconcile on the next informer event -----

  class NextEventPool {
    var items: set<Key>
    var undrainedTime: Option<Time>
    var lastDrain: Option<Time>

    // The waiting time is measured from the first push after a drain.
    ghost predicate Valid()
      reads this
    {
      items == {} <==> undrainedTime.None?
    }

    constructor ()
      ensures Valid() && items == {} && lastDrain.None?
    {
      items, undrainedTime, lastDrain := {}, None, None;
    }

    method Push(item: Key, now: Time)
      requires Valid()
      modifies this
      ensures Valid() && items == old(items) + {item} && lastDrain == old(lastDrain)
      ensures undrainedTime == if old(items) == {} then Some(now) else old(undrainedTime)
    {
      if items == {} {
        undrainedTime := Some(now);
      }
      items := items + {item};
      assert item in items;
    }

    method Drain(now: Time) returns (objects: set<Key>, latency: Time, sinceLastDrain: Option<Time>)
      requires Valid()
      modifies this
      ensures Valid() && items == {} && undrainedTime.None? && lastDrain == Some(now)
      ensures objects == old(items)
      ensures latency == if old(items) == {} then 0 else now - old(undrainedTime).value
      ensures sinceLastDrain == if old(lastDrain).None? then None else Some(now - old(lastDrain).value)
    {
      objects, items := items, {};
      latency := if undrainedTime.None? then 0 else now - undrainedTime.value;
      sinceLastDrain := if lastDrain.None? then None else Some(now - lastDrain.value);
      undrainedTime, lastDrain := None, Some(now);
    }
  }

  // An event of a shard: the protectors it concerns, and those that waited for it, are queued once each. An event that
  // is not about a pod, or that the keeper of the sync time cannot take (`synced` is false), leaves those that wait
  // waiting.
  method HandleEvent(pool: NextEventPool, isPod: bool, synced: bool, matched: set<Key>, now: Time)
    returns (queued: seq<Key>)
    requires pool.Valid()
    modifies pool
    ensures pool.Valid() && Distinct(queued)
    ensures !isPod || !synced ==> queued == [] && pool.items == old(pool.items)
    ensures isPod && synced ==> pool.items == {}
    ensures isPod && synced ==> forall key :: key in queued <==> key in matched || key in old(pool.items)
  {
    queued := [];
    if !isPod {
      return;
    }
    if !synced {
      return;
    }
    var triggerReconcile, _, _ := pool.Drain(now);
    triggerReconcile := triggerReconcile + matched;
    var rest := triggerReconcile;
    while rest != {}
      invariant rest <= triggerReconcile && Distinct(queued)
      invariant forall key :: key in queued <==> key in triggerReconcile && key !in rest
    {
      var key :| key in rest;
      rest := rest - {key};
      queued := queued + [key];
    }
  }

  // Any use of one pool, in the order its lock imposes.
  datatype PoolOp = PushOp(item: Key) | DrainOp

  // What each drain of a run returns.
  function Drained(items: set<Key>, ops: seq<PoolOp>): seq<set<Key>>
    decreases |ops|
  {
    if ops == [] then []
    else if ops[0].DrainOp? then [items] + Drained({}, ops[1..])
    else Drained(items + {ops[0].item}, ops[1..])
  }

  function Drains(ops: seq<PoolOp>): nat {
    if ops == [] then 0 else (if ops[0].DrainOp? then 1 else 0) + Drains(ops[1..])
  }

  function Pushed(ops: seq<PoolOp>): set<Key> {
    if ops == [] then {} else (if ops[0].PushOp? then {ops[0].item} else {}) + Pushed(ops[1..])
  }

  // No item is lost and none is returned twice: the next drain after a stretch of the run returns
  // what was in the pool before it and what was pushed during it, nothing else.
  lemma {:induction false} NextDrainReturns(items: set<Key>, before: seq<PoolOp>, after: seq<PoolOp>)
    requires Drains(before) == 0
    ensures Drained(items, before + [DrainOp] + after) == [items + Pushed(before)] + Drained({}, after)
    decreases |before|
  {
    var ops := before + [DrainOp] + after;
    if before == [] {
      assert ops[1..] == after;
      assert items + Pushed(before) == items;
    } else {
      assert ops[1..] == before[1..] + [DrainOp] + after;
      NextDrainReturns(items + {before[0].item}, before[1..], after);
      assert items + {before[0].item} + Pushed(before[1..]) == items + Pushed(before);
    }
  }

  // ----- dropping obsolete buckets -----

  // hash stands for the FNV hash of a pod name.
  datatype Shards = Shards(sync: seq<Time>, hash: string -> nat) {
    ghost predicate Valid() {
      sync != []
    }

    function Min(): Time
      requires Valid()
    {
      MinOf(sync)
    }

    function ShardNumber(name: string): (k: nat)
      requires Valid()
      ensures k < |sync|
    {
      hash(name) % |sync|
    }

    // The shard a single-pod bucket belongs to, when its pod name is recorded.
    function ShardOf(b: Bucket): Option<nat>
      requires Valid()
    {
      if b.name == "" then None else Some(ShardNumber(b.name))
    }

    // lastEventTimeList.get
    function Get(shard: Option<nat>): Time
      requires Valid() && (shard.Some? ==> shard.value < |sync|)
    {
      if shard.Some? then sync[shard.value] else Min()
    }

    predicate Obsolete(b: Bucket)
      requires Valid()
    {
      if b.uid.Some? then b.start < Get(ShardOf(b)) else b.EndTime() < Min()
    }

    // Whether keeping b asks for a wake-up on the next event of shard k.
    predicate Marks(b: Bucket, k: nat)
      requires Valid() && k < |sync|
    {
      if b.uid.Some? && b.name != "" then k == ShardNumber(b.name) else sync[k] < b.start
    }
  }

  function MinOf(sync: seq<Time>): Time
    requires sync != []
  {
    if |sync| == 1 then sync[0] else Common.Min(MinOf(sync[..|sync| - 1]), sync[|sync| - 1])
  }

  lemma {:induction false} MinOfIsLeast(sync: seq<Time>)
    requires sync != []
    ensures forall t :: t in sync ==> MinOf(sync) <= t
    ensures MinOf(sync) in sync
  {
    if |sync| > 1 {
      MinOfIsLeast(sync[..|sync| - 1]);
      assert sync == sync[..|sync| - 1] + [sync[|sync| - 1]];
    }
  }

  function Kept(shards: Shards, buckets: seq<Bucket>): seq<Bucket>
    requires shards.Valid()
  {
    if buckets == [] then []
    else
      var last := |buckets| - 1;
      Kept(shards, buckets[..last]) + if shards.Obsolete(buckets[last]) then [] else [buckets[last]]
  }

  // Kept is the part of the history, in order and unchanged, that is not obsolete.
  lemma {:induction false} KeptExactly(shards: Shards, buckets: seq<Bucket>)
    requires shards.Valid()
    ensures forall b :: b in Kept(shards, buckets) <==> b in buckets && !shards.Obsolete(b)
    ensures forall b :: b in buckets && !shards.Obsolete(b) ==>
      multiset(Kept(shards, buckets))[b] == multiset(buckets)[b]
    ensures |Kept(shards, buckets)| <= |buckets|
    ensures Kept(shards, buckets) == buckets <==> forall b :: b in buckets ==> !shards.Obsolete(b)
    ensures |Kept(shards, buckets)| == |buckets| ==> Kept(shards, buckets) == buckets
  {
    if buckets != [] {
      var last := |buckets| - 1;
      assert buckets == buckets[..last] + [buckets[last]];
      KeptExactly(shards, buckets[..last]);
    }
  }

  // An admission that b stands for may be one that the pods listed before the sync times do not reflect.
  ghost predicate MayBeUnseen(shards: Shards, b: Bucket)
    requires shards.Valid()
  {
    var end := if b.uid.None? && b.end.Some? then b.end.value else b.start;
    if b.uid.Some? && b.name != "" then shards.sync[shards.hash(b.name) % |shards.sync|] <= end
    else exists k :: 0 <= k < |shards.sync| && shards.sync[k] <= end
  }

  lemma ObsoleteIff(shards: Shards, b: Bucket)
    requires shards.Valid()
    ensures shards.Obsolete(b) <==> !MayBeUnseen(shards, b)
  {
    MinOfIsLeast(shards.sync);
    var k :| 0 <= k < |shards.sync| && shards.sync[k] == shards.Min();
    assert forall i :: 0 <= i < |shards.sync| ==> shards.sync[i] in shards.sync;
    if !shards.Obsolete(b) && (b.uid.None? || b.name == "") {
      assert shards.sync[k] <= if b.uid.None? then b.EndTime() else b.start;
    }
  }

  // The buckets kept are those that may be unseen: a single pod's unless it starts before the sync time of its shard,
  // or of every shard when the bucket has no name, and a compacted one unless it ends before that of every shard.
  ghost predicate KeepsUnseen(shards: Shards, buckets: seq<Bucket>, kept: seq<Bucket>)
    requires shards.Valid()
  {
    forall b :: multiset(kept)[b] == if MayBeUnseen(shards, b) then multiset(buckets)[b] else 0
  }

  lemma KeptIsUnseen(shards: Shards, buckets: seq<Bucket>)
    requires shards.Valid()
    ensures KeepsUnseen(shards, buckets, Kept(shards, buckets))
    ensures forall b :: b in Kept(shards, buckets) <==> b in buckets && MayBeUnseen(shards, b)
    ensures Kept(shards, buckets) == buckets <==> forall b :: b in buckets ==> MayBeUnseen(shards, b)
  {
    var kept := Kept(shards, buckets);
    KeptExactly(shards, buckets);
    forall b | b in buckets ensures shards.Obsolete(b) <==> !MayBeUnseen(shards, b) {
      ObsoleteIff(shards, b);
    }
    forall b ensures multiset(kept)[b] == if MayBeUnseen(shards, b) then multiset(buckets)[b] else 0 {
      assert b in kept <==> b in multiset(kept);
      assert b in buckets <==> b in multiset(buckets);
    }
  }

  // Compaction hides nothing from this: the head that stands for merged buckets is dropped exactly when each of them
  // ends before every sync time, and then each also starts before it.
  lemma CompactedDroppedIff(shards: Shards, first: Bucket, merged: seq<Bucket>)
    requires shards.Valid() && first.WellFormed() && forall b :: b in merged ==> first.start <= b.start
    ensures var kept := Kept(shards, [CompactHead(first, merged)]);
      && (kept == [] <==> forall b, k ::
        b in [first] + merged && 0 <= k < |shards.sync| ==> b.EndTime() < shards.sync[k])
      && (kept == [] ==> forall b, k ::
        b in [first] + merged && b.start <= b.EndTime() && 0 <= k < |shards.sync| ==> b.start < shards.sync[k])
  {
    var head := CompactHead(first, merged);
    CompactHeadCovers(first, merged);
    KeptIsUnseen(shards, [head]);
    assert [head][0] == head && Kept(shards, [head]) in [[], [head]] by {
      assert [head][..0] == [];
    }
    assert head in [head];
    if Kept(shards, [head]) == [] {
      forall b, k | b in [first] + merged && 0 <= k < |shards.sync| ensures b.EndTime() < shards.sync[k] {
        assert !(shards.sync[k] <= head.EndTime());
      }
    }
  }

  ghost predicate Outstanding(shards: Shards, kept: seq<Bucket>, k: nat)
    requires shards.Valid() && k < |shards.sync|
  {
    exists b :: b in kept && shards.Marks(b, k)
  }

  method UpdateLastEventTime(pools: seq<NextEventPool>, key: Key, buckets: seq<Bucket>, shards: Shards, now: Time)
    returns (newBuckets: seq<Bucket>, changed: bool)
    requires shards.Valid() && |pools| == |shards.sync|
    requires forall b :: b in buckets ==> b.WellFormed()
    requires PoolsValid(pools)
    modifies pools
    ensures newBuckets == Kept(shards, buckets) && changed == (newBuckets != buckets)
    ensures KeepsUnseen(shards, buckets, newBuckets)
    ensures changed <==> exists b :: b in buckets && !MayBeUnseen(shards, b)
    ensures PoolsValid(pools)
    ensures forall k :: 0 <= k < |pools| ==>
      pools[k].items == old(pools[k].items) + if Outstanding(shards, newBuckets, k) then {key} else {}
  {
    KeptIsUnseen(shards, buckets);
    hide KeepsUnseen, MayBeUnseen, Kept;
    var outstanding;
    newBuckets, changed, outstanding := SelectBuckets(buckets, shards);
    if |newBuckets| > 0 {
      NotifyShards(pools, key, outstanding, now);
    }
  }

  ghost predicate PoolsValid(pools: seq<NextEventPool>)
    reads pools
  {
    && (forall i :: 0 <= i < |pools| ==> pools[i].Valid())
    && (forall i, j :: 0 <= i < j < |pools| ==> pools[i] != pools[j])
  }

  method NotifyShards(pools: seq<NextEventPool>, key: Key, outstanding: seq<bool>, now: Time)
    requires |outstanding| == |pools| && PoolsValid(pools)
    modifies pools
    ensures PoolsValid(pools)
    ensures forall k ::
      0 <= k < |pools| ==> pools[k].items == old(pools[k].items) + if outstanding[k] then {key} else {}
  {
    for k := 0 to |pools|
      invariant PoolsValid(pools)
      invariant forall i :: 0 <= i < |pools| ==>
        pools[i].items == old(pools[i].items) + if i < k && outstanding[i] then {key} else {}
    {
      if outstanding[k] {
        pools[k].Push(key, now);
      }
    }
  }

  // The loop over the history: which buckets stay, and which shards they wait for.
  method SelectBuckets(buckets: seq<Bucket>, shards: Shards)
    returns (newBuckets: seq<Bucket>, changed: bool, outstanding: seq<bool>)
    requires shards.Valid() && forall b :: b in buckets ==> b.WellFormed()
    ensures newBuckets == Kept(shards, buckets) && changed == (newBuckets != buckets)
    ensures |outstanding| == |shards.sync|
    ensures forall k :: 0 <= k < |outstanding| ==> (outstanding[k] <==> Outstanding(shards, newBuckets, k))
  {
    changed, newBuckets := false, [];
    outstanding := seq(|shards.sync|, _ => false);
    for index := 0 to |buckets|
      invariant newBuckets == Kept(shards, buckets[..index])
      invariant changed == (|newBuckets| < index) && |newBuckets| <= index
      invariant |outstanding| == |shards.sync|
      invariant forall k :: 0 <= k < |outstanding| ==> (outstanding[k] <==> Outstanding(shards, newBuckets, k))
    {
      var bucket := buckets[index];
      assert bucket in buckets;
      assert buckets[..index + 1][..index] == buckets[..index];
      OutstandingSnoc(shards, newBuckets, bucket);
      if bucket.uid.Some? {
        var shardNumber := shards.ShardOf(bucket);
        if bucket.start < shards.Get(shardNumber) {
          changed := true;
        } else {
          newBuckets := newBuckets + [bucket];
          if shardNumber.Some? {
            outstanding := outstanding[shardNumber.value := true];
          } else {
            outstanding := MarkLagging(shards, bucket, outstanding);
          }
        }
      } else {
        if bucket.end.value < shards.Min() {
          changed := true;
        } else {
          newBuckets := newBuckets + [bucket];
          outstanding := MarkLagging(shards, bucket, outstanding);
        }
      }
    }
    assert buckets[..|buckets|] == buckets;
    KeptExactly(shards, buckets);
  }

  // The inner loop over the shards that lag behind the start of a bucket.
  method MarkLagging(shards: Shards, bucket: Bucket, outstanding: seq<bool>) returns (marked: seq<bool>)
    requires shards.Valid() && |outstanding| == |shards.sync|
    ensures |marked| == |outstanding|
    ensures forall k :: 0 <= k < |marked| ==> (marked[k] <==> outstanding[k] || shards.sync[k] < bucket.start)
  {
    marked := outstanding;
    for shardNumber := 0 to |shards.sync|
      invariant |marked| == |outstanding|
      invariant forall k :: 0 <= k < |marked| ==>
        (marked[k] <==> outstanding[k] || (k < shardNumber && shards.sync[k] < bucket.start))
    {
      if shards.sync[shardNumber] < bucket.start {
        marked := marked[shardNumber := true];
      }
    }
  }

  lemma OutstandingSnoc(shards: Shards, kept: seq<Bucket>, b: Bucket)
    requires shards.Valid()
    ensures forall k :: 0 <= k < |shards.sync| ==>
      (Outstanding(shards, kept + [b], k) <==> Outstanding(shards, kept, k) || shards.Marks(b, k))
  {
    forall k | 0 <= k < |shards.sync|
      ensures Outstanding(shards, kept + [b], k) <==> Outstanding(shards, kept, k) || shards.Marks(b, k)
    {
      if Outstanding(shards, kept, k) {
        var x :| x in kept && shards.Marks(x, k);
        assert x in kept + [b];
      }
      assert b in kept + [b];
    }
  }

  // A kept bucket with a pod name always asks its own shard, and only it, for a wake-up.
  // A kept bucket without one asks some shard exactly when it starts after the oldest sync time:
  // at equality an unnamed bucket is kept and asks nobody, and so is a compacted bucket whose
  // interval contains the oldest sync time.
  lemma WakeUpIff(shards: Shards, b: Bucket)
    requires shards.Valid() && b.WellFormed() && !shards.Obsolete(b)
    ensures b.uid.Some? && b.name != "" ==>
      forall k :: 0 <= k < |shards.sync| ==> (shards.Marks(b, k) <==> k == shards.ShardNumber(b.name))
    ensures b.uid.None? || b.name == "" ==>
      ((exists k :: 0 <= k < |shards.sync| && shards.Marks(b, k)) <==> shards.Min() < b.start)
      && forall k :: 0 <= k < |shards.sync| && shards.sync[k] < b.start ==> shards.Marks(b, k)
  {
    MinOfIsLeast(shards.sync);
    var k :| 0 <= k < |shards.sync| && shards.sync[k] == shards.Min();
    if b.uid.None? || b.name == "" {
      assert shards.Marks(b, k) <==> shards.Min() < b.start;
      forall i | 0 <= i < |shards.sync| && shards.Marks(b, i) ensures shards.Min() < b.start {
        assert shards.sync[i] in shards.sync;
      }
    }
  }

  // An unnamed bucket starting exactly at the only sync time is kept and wakes nobody up.
  lemma MissedWakeUp()
    ensures
      var shards := Shards([5], _ => 0);
      var b := Bucket(5, Some("uid"), "", None, None);
      Kept(shards, [b]) == [b] && !Outstanding(shards, [b], 0)
  {
    var shards := Shards([5], _ => 0);
    var b := Bucket(5, Some("uid"), "", None, None);
    WakeUpIff(shards, b);
    KeptExactly(shards, [b]);
  }

  // ----- the status part of a reconciliation -----

  // What podutil.GetPodStatus and the pod itself say about one relevant pod.
  datatype PodView = PodView(
    scheduled: bool, running: bool, ready: bool, available: bool, pending: bool, unassigned: bool) {
    // Whether the pod has the status that a criterion looks at.
    predicate Has(c: Quota.Criterion) {
      match c
      case Scheduled => scheduled
      case Running => running
      case Ready => ready
      case _ => available
    }
  }

  // The pods that have it, by position.
  ghost function Having(pods: seq<PodView>, c: Quota.Criterion): set<nat> {
    set i: nat | i < |pods| && pods[i].Has(c)
  }

  function IsScheduled(p: PodView): int { if p.scheduled then 1 else 0 }
  function IsRunning(p: PodView): int { if p.running then 1 else 0 }
  function IsReady(p: PodView): int { if p.ready then 1 else 0 }
  function IsAvailable(p: PodView): int { if p.available then 1 else 0 }
  function IsPending(p: PodView): int { if p.pending then 1 else 0 }
  function IsUnscheduledPending(p: PodView): int { if p.pending && p.unassigned then 1 else 0 }

  // The aggregation a cell should hold for these pods; the event time is set separately.
  function CountPods(pods: seq<PodView>, lastEventTime: Option<Time>): Aggregation {
    Aggregation(
      |pods|, Sum(IsAvailable, pods), Sum(IsReady, pods), Sum(IsScheduled, pods), Sum(IsRunning, pods),
      Some(Sum(IsPending, pods)), Some(Sum(IsUnscheduledPending, pods)), lastEventTime)
  }

  lemma {:induction false} SumIsCardinality(f: PodView -> int, pods: seq<PodView>, positions: set<nat>)
    requires forall p :: f(p) in {0, 1}
    requires forall i :: i in positions ==> i < |pods|
    requires forall i :: 0 <= i < |pods| ==> f(pods[i]) == if i in positions then 1 else 0
    ensures Sum(f, pods) == |positions|
  {
    if pods == [] {
      assert positions == {};
    } else {
      var last := |pods| - 1;
      SumSnoc(f, pods, last);
      assert pods[..last + 1] == pods;
      SumIsCardinality(f, pods[..last], positions - {last});
    }
  }

  // Each count is the number of pods that have the status it is named after.
  lemma CountsArePods(pods: seq<PodView>, lastEventTime: Option<Time>)
    ensures CountPods(pods, lastEventTime).total == |pods|
    ensures forall c :: CountOfStatus(CountPods(pods, lastEventTime), c) == |Having(pods, c)|
    ensures CountPods(pods, lastEventTime).pending == Some(|set i: nat | i < |pods| && pods[i].pending|)
    ensures CountPods(pods, lastEventTime).unscheduledPending ==
      Some(|set i: nat | i < |pods| && pods[i].pending && pods[i].unassigned|)
  {
    forall c ensures CountOfStatus(CountPods(pods, lastEventTime), c) == |Having(pods, c)| {
      CountIsPods(pods, lastEventTime, c);
    }
    SumIsCardinality(IsPending, pods, set i: nat | i < |pods| && pods[i].pending);
    SumIsCardinality(IsUnscheduledPending, pods, set i: nat | i < |pods| && pods[i].pending && pods[i].unassigned);
  }

  lemma CountIsPods(pods: seq<PodView>, lastEventTime: Option<Time>, c: Quota.Criterion)
    ensures CountOfStatus(CountPods(pods, lastEventTime), c) == |Having(pods, c)|
  {
    match c {
      case Scheduled => SumIsCardinality(IsScheduled, pods, Having(pods, c));
      case Running => SumIsCardinality(IsRunning, pods, Having(pods, c));
      case Ready => SumIsCardinality(IsReady, pods, Having(pods, c));
      case _ => SumIsCardinality(IsAvailable, pods, Having(pods, c));
    }
  }

  method AggregateStatus(pods: seq<PodView>, target: Aggregation) returns (aggregation: Aggregation, changed: bool)
    ensures aggregation == CountPods(pods, target.lastEventTime)
    ensures changed == (aggregation != target)
    ensures aggregation.total == |pods| && forall c :: CountOfStatus(aggregation, c) == |Having(pods, c)|
    ensures aggregation.pending == Some(|set i: nat | i < |pods| && pods[i].pending|)
    ensures aggregation.unscheduledPending ==
      Some(|set i: nat | i < |pods| && pods[i].pending && pods[i].unassigned|)
  {
    CountsArePods(pods, target.lastEventTime);
    hide Having;
    var ready, scheduled, running, available, pending, unscheduledPending := 0, 0, 0, 0, 0, 0;
    for i := 0 to |pods|
      invariant ready == Sum(IsReady, pods[..i]) && scheduled == Sum(IsScheduled, pods[..i])
      invariant running == Sum(IsRunning, pods[..i]) && available == Sum(IsAvailable, pods[..i])
      invariant pending == Sum(IsPending, pods[..i]) && unscheduledPending == Sum(IsUnscheduledPending, pods[..i])
    {
      var pod := pods[i];
      SumSnoc(IsReady, pods, i);
      SumSnoc(IsScheduled, pods, i);
      SumSnoc(IsRunning, pods, i);
      SumSnoc(IsAvailable, pods, i);
      SumSnoc(IsPending, pods, i);
      SumSnoc(IsUnscheduledPending, pods, i);
      if pod.scheduled { scheduled := scheduled + 1; }
      if pod.running { running := running + 1; }
      if pod.ready { ready := ready + 1; }
      if pod.available { available := available + 1; }
      if pod.pending {
        pending := pending + 1;
        if pod.unassigned { unscheduledPending := unscheduledPending + 1; }
      }
    }
    assert pods[..|pods|] == pods;
    aggregation := target.(
      total := |pods|, ready := ready, scheduled := scheduled, running := running, available := available,
      pending := Some(pending), unscheduledPending := Some(unscheduledPending));
    changed :=
      target.total != |pods| || target.ready != ready || target.scheduled != scheduled || target.running != running
      || target.available != available || target.pending != Some(pending)
      || target.unscheduledPending != Some(unscheduledPending);
  }

  // The cell of this aggregator, appended when it is new.
  function WithCell(cells: seq<Cell>, id: CellId): (r: seq<Cell>)
    ensures FindCell(cells, id) < 0 ==> |r| == |cells| + 1 && r[|cells|].id == id
  {
    if FindCell(cells, id) < 0 then cells + [Cell(id, NO_AGGREGATION, [])] else cells
  }

  function CellIndex(cells: seq<Cell>, id: CellId): (i: nat)
    ensures i < |WithCell(cells, id)|
  {
    if FindCell(cells, id) < 0 then |cells| else FindCell(cells, id)
  }

  // Whether the counts or the history of the cell are out of date.
  predicate Stale(cell: Cell, pods: seq<PodView>, shards: Shards)
    requires shards.Valid()
  {
    CountPods(pods, cell.aggregation.lastEventTime) != cell.aggregation || Kept(shards, cell.buckets) != cell.buckets
  }

  function ReconciledCell(cell: Cell, pods: seq<PodView>, shards: Shards): Cell
    requires shards.Valid()
  {
    cell.(aggregation := CountPods(pods, Some(shards.Min())), buckets := Kept(shards, cell.buckets))
  }

  // The cells with the one at i recounted and pruned, and their summary.
  ghost predicate Recounts(cfg: Config, cells: seq<Cell>, i: nat, pods: seq<PodView>, shards: Shards, written: Ppr)
    requires cfg.compactThreshold >= 1 && shards.Valid() && i < |cells|
  {
    && CellsCompactTo(cfg.compactThreshold, cells[i := ReconciledCell(cells[i], pods, shards)], written.cells)
    && written.summary == SummaryOf(written.cells)
  }

  // What one reconciliation of a PodProtector read as `read` sends to the API server, if anything.
  ghost predicate Reconciles(cfg: Config, read: Ppr, id: CellId, pods: seq<PodView>, shards: Shards,
                             written: Option<Ppr>)
    requires cfg.compactThreshold >= 1 && shards.Valid()
  {
    var cells, i := WithCell(read.cells, id), CellIndex(read.cells, id);
    if (FindCell(read.cells, id) < 0 && pods == []) || !Stale(cells[i], pods, shards) then
      written == None
    else
      written.Some? && Recounts(cfg, cells, i, pods, shards, written.value)
      && written.value.minAvailable == read.minAvailable
  }

  lemma WellFormedCell(cells: seq<Cell>, id: CellId)
    requires CellsWellFormed(cells)
    ensures forall b :: b in WithCell(cells, id)[CellIndex(cells, id)].buckets ==> b.WellFormed()
    ensures CellsWellFormed(WithCell(cells, id))
  {
    var i := CellIndex(cells, id);
    var all := WithCell(cells, id);
    forall b | b in all[i].buckets ensures b.WellFormed() {
      assert i < |cells|;
      assert b in multiset(cells[i].buckets);
    }
  }

  // The counts of the cell are those of the pods, and its buckets may all be unseen.
  ghost predicate UpToDate(cell: Cell, pods: seq<PodView>, shards: Shards)
    requires shards.Valid()
  {
    CountsPods(cell.aggregation, pods) && forall b :: b in cell.buckets ==> MayBeUnseen(shards, b)
  }

  ghost predicate CountsPods(a: Aggregation, pods: seq<PodView>) {
    && a.total == |pods| && (forall c :: CountOfStatus(a, c) == |Having(pods, c)|)
    && a.pending == Some(|set i: nat | i < |pods| && pods[i].pending|)
    && a.unscheduledPending == Some(|set i: nat | i < |pods| && pods[i].pending && pods[i].unassigned|)
  }

  lemma StaleIff(cell: Cell, pods: seq<PodView>, shards: Shards)
    requires shards.Valid()
    ensures Stale(cell, pods, shards) <==> !UpToDate(cell, pods, shards)
  {
    hide CountPods, CountsPods, Kept, KeepsUnseen, MayBeUnseen;
    CountsIff(cell.aggregation, pods);
    KeptIsUnseen(shards, cell.buckets);
  }

  lemma CountsIff(a: Aggregation, pods: seq<PodView>)
    ensures CountPods(pods, a.lastEventTime) == a <==> CountsPods(a, pods)
  {
    CountsArePods(pods, a.lastEventTime);
    hide Having;
    if CountsPods(a, pods) {
      SameCounts(a, CountPods(pods, a.lastEventTime));
    }
  }

  lemma SameCounts(a: Aggregation, b: Aggregation)
    requires a.total == b.total && a.pending == b.pending && a.unscheduledPending == b.unscheduledPending
    requires a.lastEventTime == b.lastEventTime && forall c :: CountOfStatus(a, c) == CountOfStatus(b, c)
    ensures a == b
  {
    assert CountOfStatus(a, Quota.Scheduled) == CountOfStatus(b, Quota.Scheduled);
    assert CountOfStatus(a, Quota.Running) == CountOfStatus(b, Quota.Running);
    assert CountOfStatus(a, Quota.Ready) == CountOfStatus(b, Quota.Ready);
    assert CountOfStatus(a, Quota.Available) == CountOfStatus(b, Quota.Available);
  }

  // The cells that an update stores: the cell of the aggregator, appended if it was missing, has the counts of the
  // pods, the oldest sync time and the buckets that may be unseen; the others are as before, up to compaction.
  ghost predicate StoresCounts(cfg: Config, cells: seq<Cell>, id: CellId, pods: seq<PodView>, shards: Shards,
                               stored: seq<Cell>)
    requires cfg.compactThreshold >= 1 && shards.Valid()
  {
    exists i: nat, history, kept ::
      && FirstWithId(cells, id, i, history, |stored|)
      && (forall j :: 0 <= j < |cells| && j != i ==> CellCompactsTo(cfg.compactThreshold, cells[j], stored[j]))
      && stored[i].id == id && CountsPods(stored[i].aggregation, pods)
      && OldestOf(shards.sync, stored[i].aggregation.lastEventTime)
      && KeepsUnseen(shards, history, kept) && CompactsTo(cfg.compactThreshold, kept, stored[i].buckets)
  }

  // The first cell with the id is at i, or there is none and i is where it is appended, so that there are n cells.
  ghost predicate FirstWithId(cells: seq<Cell>, id: CellId, i: nat, history: seq<Bucket>, n: nat) {
    && (if i < |cells| then n == |cells| && cells[i].id == id && history == cells[i].buckets
        else i == |cells| && n == |cells| + 1 && history == [])
    && forall j :: 0 <= j < i ==> cells[j].id != id
  }

  ghost predicate OldestOf(sync: seq<Time>, time: Option<Time>) {
    time.Some? && time.value in sync && forall t :: t in sync ==> time.value <= t
  }

  lemma RecountStores(cfg: Config, cells: seq<Cell>, id: CellId, pods: seq<PodView>, shards: Shards, written: Ppr)
    requires cfg.compactThreshold >= 1 && shards.Valid()
    requires Recounts(cfg, WithCell(cells, id), CellIndex(cells, id), pods, shards, written)
    ensures StoresCounts(cfg, cells, id, pods, shards, written.cells)
  {
    var all, i, stored := WithCell(cells, id), CellIndex(cells, id), written.cells;
    var cell := ReconciledCell(all[i], pods, shards);
    CellFound(cells, id);
    ReconciledMeans(all[i], pods, shards);
    RecountKeepsOthers(cfg, cells, id, pods, shards, written);
    assert CellCompactsTo(cfg.compactThreshold, cell, stored[i]);
    hide Recounts, ReconciledCell, WithCell, CellIndex, CountsPods, OldestOf, KeepsUnseen, CompactsTo;
    hide FirstWithId;
    assert FirstWithId(cells, id, i, all[i].buckets, |stored|);
  }

  lemma CellFound(cells: seq<Cell>, id: CellId)
    ensures var all, i := WithCell(cells, id), CellIndex(cells, id);
      FirstWithId(cells, id, i, all[i].buckets, |all|) && all[i].id == id
    ensures forall j :: 0 <= j < |cells| ==> WithCell(cells, id)[j] == cells[j]
  {
    FindCellFirst(cells, id, FindCell(cells, id));
  }

  lemma ReconciledMeans(cell: Cell, pods: seq<PodView>, shards: Shards)
    requires shards.Valid()
    ensures var after := ReconciledCell(cell, pods, shards);
      && after.id == cell.id && CountsPods(after.aggregation, pods)
      && OldestOf(shards.sync, after.aggregation.lastEventTime) && KeepsUnseen(shards, cell.buckets, after.buckets)
  {
    KeptIsUnseen(shards, cell.buckets);
    CountsArePods(pods, Some(shards.Min()));
    MinOfIsLeast(shards.sync);
    hide Having, Kept, KeepsUnseen;
  }

  lemma RecountKeepsOthers(cfg: Config, cells: seq<Cell>, id: CellId, pods: seq<PodView>, shards: Shards, written: Ppr)
    requires cfg.compactThreshold >= 1 && shards.Valid()
    requires Recounts(cfg, WithCell(cells, id), CellIndex(cells, id), pods, shards, written)
    ensures |written.cells| == |WithCell(cells, id)|
    ensures forall j :: 0 <= j < |cells| && j != CellIndex(cells, id) ==>
      CellCompactsTo(cfg.compactThreshold, cells[j], written.cells[j])
  {
    var all, i := WithCell(cells, id), CellIndex(cells, id);
    var edited := all[i := ReconciledCell(all[i], pods, shards)];
    CellFound(cells, id);
    hide WithCell, CellIndex, ReconciledCell, FirstWithId;
    forall j | 0 <= j < |cells| && j != i
      ensures CellCompactsTo(cfg.compactThreshold, cells[j], written.cells[j])
    {
      assert CellCompactsTo(cfg.compactThreshold, edited[j], written.cells[j]);
    }
  }

  // A reconciliation sends nothing when the cell is missing and there are no pods, or it is up to date; else it sends
  // the new counts.
  lemma ReconcilesExactly(cfg: Config, read: Ppr, id: CellId, pods: seq<PodView>, shards: Shards, written: Option<Ppr>)
    requires cfg.compactThreshold >= 1 && shards.Valid() && Reconciles(cfg, read, id, pods, shards, written)
    ensures written.Some? ==>
      && StoresCounts(cfg, read.cells, id, pods, shards, written.value.cells)
      && written.value.summary == SummaryOf(written.value.cells) && written.value.minAvailable == read.minAvailable
    ensures written.None? <==>
      if FindCell(read.cells, id) < 0 then pods == []
      else UpToDate(read.cells[FindCell(read.cells, id)], pods, shards)
  {
    var all, i := WithCell(read.cells, id), CellIndex(read.cells, id);
    StaleIff(all[i], pods, shards);
    if written.Some? {
      hide Stale, UpToDate;
      RecountStores(cfg, read.cells, id, pods, shards, written.value);
    }
  }

  datatype ReconcileOutcome = LookupError | NothingToProcess | NoInformerSyncTime | Reconciled | UpdateFailed

  ghost function SyncTimes(sync: seq<Option<Time>>): seq<Time> {
    seq(|sync|, i requires 0 <= i < |sync| => GetOr(sync[i], 0))
  }

  // The history the reconciliation looks at.
  ghost function HistoryOf(cells: seq<Cell>, id: CellId): seq<Bucket> {
    WithCell(cells, id)[CellIndex(cells, id)].buckets
  }

  // The answer and the effect on the API server of writing `written`, when there is something to write.
  ghost predicate Writes(written: Option<Ppr>, base: nat, reachable: bool, outcome: ReconcileOutcome,
                         version: nat, stored: Ppr, version': nat, stored': Ppr)
  {
    if written.Some? && reachable && base == version then
      outcome == Reconciled && version' == version + 1
      && stored' == stored.(cells := written.value.cells, summary := written.value.summary)
    else
      outcome == (if written.None? then Reconciled else UpdateFailed) && version' == version && stored' == stored
  }

  // The protector was found, and its cell is there or has pods.
  predicate HasBusiness(lookup: Lookup, id: CellId, pods: seq<PodView>) {
    lookup.Found? && (FindCell(lookup.ppr.cells, id) >= 0 || pods != [])
  }

  ghost function KeptOf(cells: seq<Cell>, id: CellId, sync: seq<Option<Time>>, hash: string -> nat): seq<Bucket>
    requires sync != []
  {
    Kept(Shards(SyncTimes(sync), hash), HistoryOf(cells, id))
  }

  // A reconciliation against the API server. A shard pool gains the protector exactly when a kept bucket asks for that
  // shard, even if the update then fails.
  method TryReconcile(cfg: Config, server: ApiServer, lookup: Lookup, key: Key, id: CellId, pods: seq<PodView>,
                      sync: seq<Option<Time>>, hash: string -> nat, pools: seq<NextEventPool>,
                      now: Time, reachable: bool)
    returns (outcome: ReconcileOutcome)
    requires cfg.compactThreshold >= 1 && |pools| == |sync| > 0
    requires lookup.Found? ==> CellsWellFormed(lookup.ppr.cells)
    requires PoolsValid(pools)
    modifies server, pools
    ensures PoolsValid(pools)
    ensures outcome == LookupError <==> lookup.LookupFailed?
    ensures outcome == NothingToProcess <==> lookup.Absent?
    ensures outcome == NoInformerSyncTime <==> HasBusiness(lookup, id, pods) && None in sync
    ensures var counts := HasBusiness(lookup, id, pods) && None !in sync;
      forall k :: 0 <= k < |pools| ==>
        pools[k].items == old(pools[k].items) +
          if counts && Outstanding(Shards(SyncTimes(sync), hash), KeptOf(lookup.ppr.cells, id, sync, hash), k)
          then {key} else {}
    ensures outcome !in {Reconciled, UpdateFailed} ==>
      server.version == old(server.version) && server.stored == old(server.stored)
    ensures outcome in {Reconciled, UpdateFailed} ==>
      exists written ::
        && Reconciles(cfg, lookup.ppr, id, pods, Shards(SyncTimes(sync), hash), written)
        && Writes(written, lookup.version, reachable, outcome,
                  old(server.version), old(server.stored), server.version, server.stored)
    ensures server.version != old(server.version) ==>
      lookup.Found? && StoresCounts(cfg, lookup.ppr.cells, id, pods, Shards(SyncTimes(sync), hash), server.stored.cells)
  {
    if lookup.LookupFailed? {
      return LookupError;
    }
    if lookup.Absent? {
      return NothingToProcess;
    }
    var read := lookup.ppr;
    ghost var shards0 := Shards(SyncTimes(sync), hash);
    if FindCell(read.cells, id) == -1 && |pods| == 0 {
      assert Reconciles(cfg, read, id, pods, shards0, None);
      return Reconciled;
    }
    hide Reconciles, Outstanding, CellsWellFormed, StoresCounts, UpToDate, Writes, Kept;
    outcome := ReconcileFound(cfg, server, lookup.version, read, key, id, pods, sync, hash, pools, now, reachable);
  }

  // The part of tryReconcile after the protector was found with something to do.
  method ReconcileFound(cfg: Config, server: ApiServer, base: nat, read: Ppr, key: Key, id: CellId, pods: seq<PodView>,
                        sync: seq<Option<Time>>, hash: string -> nat, pools: seq<NextEventPool>, now: Time,
                        reachable: bool)
    returns (outcome: ReconcileOutcome)
    requires cfg.compactThreshold >= 1 && |pools| == |sync| > 0 && CellsWellFormed(read.cells) && PoolsValid(pools)
    requires FindCell(read.cells, id) >= 0 || pods != []
    modifies server, pools
    ensures PoolsValid(pools) && outcome in {NoInformerSyncTime, Reconciled, UpdateFailed}
    ensures outcome == NoInformerSyncTime <==> None in sync
    ensures var kept := KeptOf(read.cells, id, sync, hash);
      forall k :: 0 <= k < |pools| ==>
        pools[k].items == old(pools[k].items) +
          if None !in sync && Outstanding(Shards(SyncTimes(sync), hash), kept, k) then {key} else {}
    ensures outcome == NoInformerSyncTime ==>
      server.version == old(server.version) && server.stored == old(server.stored)
    ensures outcome != NoInformerSyncTime ==>
      exists written ::
        && Reconciles(cfg, read, id, pods, Shards(SyncTimes(sync), hash), written)
        && Writes(written, base, reachable, outcome,
                  old(server.version), old(server.stored), server.version, server.stored)
    ensures server.version != old(server.version) ==>
      StoresCounts(cfg, read.cells, id, pods, Shards(SyncTimes(sync), hash), server.stored.cells)
  {
    hide *;
    var times := ReadSyncTimes(sync);
    if times.None? {
      return NoInformerSyncTime;
    }
    var shards := Shards(times.value, hash);
    KeptOfRead(read.cells, id, sync, shards);
    var written := ReconcileStatus(cfg, read, key, id, pods, shards, pools, now);
    ReconcilesExactly(cfg, read, id, pods, shards, written);
    outcome := Send(server, base, written, reachable);
    WritesCells(written, base, reachable, outcome, old(server.version), old(server.stored), server.version,
                server.stored);
  }

  lemma KeptOfRead(cells: seq<Cell>, id: CellId, sync: seq<Option<Time>>, shards: Shards)
    requires sync != [] && shards.sync == SyncTimes(sync)
    ensures shards.Valid() && |shards.sync| == |sync|
    ensures KeptOf(cells, id, sync, shards.hash) == Kept(shards, HistoryOf(cells, id))
  {
  }

  lemma WritesCells(written: Option<Ppr>, base: nat, reachable: bool, outcome: ReconcileOutcome,
                    version: nat, stored: Ppr, version': nat, stored': Ppr)
    requires Writes(written, base, reachable, outcome, version, stored, version', stored')
    ensures outcome in {Reconciled, UpdateFailed}
    ensures version' != version ==> written.Some? && stored'.cells == written.value.cells
  {
  }

  method Send(server: ApiServer, base: nat, written: Option<Ppr>, reachable: bool) returns (outcome: ReconcileOutcome)
    modifies server
    ensures Writes(written, base, reachable, outcome,
                   old(server.version), old(server.stored), server.version, server.stored)
  {
    if written.None? {
      return Reconciled;
    }
    var update := server.UpdateStatus(base, written.value.cells, written.value.summary, reachable);
    return if update == Updated then Reconciled else UpdateFailed;
  }

  method ReadSyncTimes(sync: seq<Option<Time>>) returns (times: Option<seq<Time>>)
    ensures times.None? ==> None in sync
    ensures times.Some? ==> None !in sync && times.value == SyncTimes(sync)
  {
    var list: seq<Time> := [];
    for shardNumber := 0 to |sync|
      invariant |list| == shardNumber && forall i :: 0 <= i < shardNumber ==> sync[i] == Some(list[i])
    {
      if sync[shardNumber].None? {
        return None;
      }
      list := list + [sync[shardNumber].value];
    }
    return Some(list);
  }

  // The part of tryReconcile that works on the local copy.
  method ReconcileStatus(cfg: Config, read: Ppr, key: Key, id: CellId, pods: seq<PodView>, shards: Shards,
                         pools: seq<NextEventPool>, now: Time)
    returns (written: Option<Ppr>)
    requires cfg.compactThreshold >= 1 && shards.Valid() && |pools| == |shards.sync|
    requires CellsWellFormed(read.cells) && PoolsValid(pools)
    requires FindCell(read.cells, id) >= 0 || pods != []
    modifies pools
    ensures PoolsValid(pools)
    ensures Reconciles(cfg, read, id, pods, shards, written)
    ensures var kept := Kept(shards, HistoryOf(read.cells, id));
      forall k :: 0 <= k < |pools| ==>
        pools[k].items == old(pools[k].items) + if Outstanding(shards, kept, k) then {key} else {}
  {
    WellFormedCell(read.cells, id);
    var ppr := new StatusObject(read.minAvailable, read.cells, read.summary);
    var statusIndex := EnsureCell(ppr, id);
    written := RefreshCell(cfg, ppr, statusIndex, key, pods, shards, pools, now);
  }

  // Recounts and prunes one cell of the local copy.
  method RefreshCell(cfg: Config, ppr: StatusObject, statusIndex: nat, key: Key, pods: seq<PodView>, shards: Shards,
                 pools: seq<NextEventPool>, now: Time)
    returns (written: Option<Ppr>)
    requires cfg.compactThreshold >= 1 && shards.Valid() && |pools| == |shards.sync|
    requires CellsWellFormed(ppr.cells) && PoolsValid(pools) && statusIndex < |ppr.cells|
    requires forall b :: b in ppr.cells[statusIndex].buckets ==> b.WellFormed()
    modifies ppr, pools
    ensures PoolsValid(pools)
    ensures written == None <==> !Stale(old(ppr.cells)[statusIndex], pods, shards)
    ensures written.Some? ==>
      && Recounts(cfg, old(ppr.cells), statusIndex, pods, shards, written.value)
      && written.value.minAvailable == old(ppr.minAvailable)
    ensures forall k :: 0 <= k < |pools| ==>
      pools[k].items == old(pools[k].items) +
        if Outstanding(shards, Kept(shards, old(ppr.cells)[statusIndex].buckets), k) then {key} else {}
  {
    hide KeepsUnseen, MayBeUnseen, CountOfStatus, Having, Kept, Outstanding, Recounts, Stale, CellsWellFormed;
    hide CellsCompactTo, SummaryOf;
    var status := ppr.cells[statusIndex];
    var aggregation, recounted := AggregateStatus(pods, status.aggregation);
    var buckets, dropped := UpdateLastEventTime(pools, key, status.buckets, shards, now);
    if recounted || dropped {
      aggregation := aggregation.(lastEventTime := Some(shards.Min()));
      var cell := status.(aggregation := aggregation, buckets := buckets);
      KeptWellFormed(shards, ppr.cells, statusIndex, cell);
      written := WriteStatus(cfg, ppr, statusIndex, cell);
    } else {
      written := None;
    }
    StaleOrWritten(cfg, old(ppr.cells), statusIndex, pods, shards, written);
  }

  // What the two comparisons and the new cell come to.
  lemma StaleOrWritten(cfg: Config, cells: seq<Cell>, i: nat, pods: seq<PodView>, shards: Shards, written: Option<Ppr>)
    requires cfg.compactThreshold >= 1 && shards.Valid() && i < |cells|
    requires written == None <==>
      && CountPods(pods, cells[i].aggregation.lastEventTime) == cells[i].aggregation
      && Kept(shards, cells[i].buckets) == cells[i].buckets
    requires written.Some? ==>
      && CellsCompactTo(cfg.compactThreshold, cells[i := ReconciledCell(cells[i], pods, shards)], written.value.cells)
      && written.value.summary == SummaryOf(written.value.cells)
    ensures written == None <==> !Stale(cells[i], pods, shards)
    ensures written.Some? ==> Recounts(cfg, cells, i, pods, shards, written.value)
  {
  }

  // Finds the cell in the local copy, or appends it.
  method EnsureCell(ppr: StatusObject, id: CellId) returns (statusIndex: nat)
    modifies ppr`cells
    ensures ppr.cells == WithCell(old(ppr.cells), id) && statusIndex == CellIndex(old(ppr.cells), id)
  {
    var found := FindCell(ppr.cells, id);
    if found == -1 {
      statusIndex := |ppr.cells|;
      ppr.cells := ppr.cells + [Cell(id, NO_AGGREGATION, [])];
    } else {
      statusIndex := found;
    }
  }

  // The local copy with its new cell, summarized, is what is sent.
  method WriteStatus(cfg: Config, ppr: StatusObject, statusIndex: nat, cell: Cell) returns (written: Option<Ppr>)
    requires cfg.compactThreshold >= 1 && statusIndex < |ppr.cells|
    requires CellsWellFormed(ppr.cells[statusIndex := cell])
    modifies ppr
    ensures written.Some? && written.value.minAvailable == old(ppr.minAvailable)
    ensures CellsCompactTo(cfg.compactThreshold, old(ppr.cells)[statusIndex := cell], written.value.cells)
    ensures written.value.summary == SummaryOf(written.value.cells)
  {
    ppr.cells := ppr.cells[statusIndex := cell];
    ppr.Summarize(cfg.compactThreshold);
    written := Some(Ppr(ppr.minAvailable, ppr.cells, ppr.summary));
  }

  lemma KeptWellFormed(shards: Shards, cells: seq<Cell>, i: nat, cell: Cell)
    requires shards.Valid() && CellsWellFormed(cells) && i < |cells|
    requires cell.buckets == Kept(shards, cells[i].buckets)
    ensures CellsWellFormed(cells[i := cell])
  {
    KeptExactly(shards, cells[i].buckets);
    forall b: Bucket | b in multiset(cell.buckets) ensures b.WellFormed() {
      assert b in cell.buckets;
      assert b in multiset(cells[i].buckets);
    }
  }
}
