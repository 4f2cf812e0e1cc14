/**
 How many deletions of one batch may proceed (webhook/handler/disruptionquota/quota.go).
 */
module Quota {
  import opened Common
  import PodProtector

  // Any other value of the health criterion is treated like Available.
  datatype Criterion = Scheduled | Running | Ready | Available | Unknown

  datatype PodStatus = PodStatus(criterion: Criterion, scheduled: bool, running: bool, ready: bool, available: bool) {
    // Whether the pod counts towards the number its own criterion looks at.
    predicate Contributes() {
      match criterion
      case Scheduled => scheduled
      case Running => running
      case Ready => ready
      case _ => available
    }
  }

  datatype Threshold = Threshold(reject: int, retry: int, remaining: Option<int>)

  datatype Result = Ok | AlreadyUnhealthy | Retry | Denied {
    predicate ShouldDisrupt() {
      Ok? || AlreadyUnhealthy?
    }
  }

  function GetResultForCriterion(current: int, isContributor: bool, threshold: Threshold): Result {
    if !isContributor then AlreadyUnhealthy
    else if current <= threshold.reject then Denied
    else if current <= threshold.retry then Retry
    else Ok
  }

  // The value of a State between two calls.
  datatype Tally = Tally(scheduled: int, running: int, ready: int, available: int, threshold: Threshold) {
    function Count(criterion: Criterion): int {
      match criterion
      case Scheduled => scheduled
      case Running => running
      case Ready => ready
      case _ => available
    }

    // Admission under a count needs strictly more than this.
    function Floor(): int {
      Max(threshold.reject, threshold.retry)
    }

    predicate Exhausted() {
      threshold.remaining == Some(0)
    }

    function Verdict(pod: PodStatus): Result {
      if Exhausted() then Retry else GetResultForCriterion(Count(pod.criterion), pod.Contributes(), threshold)
    }

    function Without(pod: PodStatus): Tally {
      Tally(
        scheduled - (if pod.scheduled then 1 else 0), running - (if pod.running then 1 else 0),
        ready - (if pod.ready then 1 else 0), available - (if pod.available then 1 else 0), threshold)
    }

    function After(pod: PodStatus): Tally {
      if Verdict(pod).ShouldDisrupt() then Without(pod) else this
    }
  }

  function MakeTally(minAvailable: int, summary: PodProtector.Summary, maxConcurrentLag: int): Tally {
    var lag := summary.available - summary.estimated;
    Tally(summary.scheduled, summary.running, summary.ready, summary.available,
      Threshold(minAvailable, minAvailable + lag, if maxConcurrentLag == 0 then None else Some(maxConcurrentLag - lag)))
  }

  // A batch is judged from its latest request to its earliest.
  function TallyAfter(t: Tally, pods: seq<PodStatus>): Tally
    decreases |pods|
  {
    if pods == [] then t
    else TallyAfter(t.After(pods[|pods| - 1]), pods[..|pods| - 1])
  }

  // The state in which request i is judged.
  function TallyBefore(t: Tally, pods: seq<PodStatus>, i: nat): Tally
    requires i < |pods|
  {
    TallyAfter(t, pods[i + 1..])
  }

  function Verdicts(t: Tally, pods: seq<PodStatus>): (r: seq<Result>)
    ensures |r| == |pods|
    decreases |pods|
  {
    if pods == [] then []
    else
      var last := |pods| - 1;
      Verdicts(t.After(pods[last]), pods[..last]) + [t.Verdict(pods[last])]
  }

  lemma {:induction false} TallyAfterHead(t: Tally, pods: seq<PodStatus>)
    requires pods != []
    ensures TallyAfter(t, pods) == TallyAfter(t, pods[1..]).After(pods[0])
    decreases |pods|
  {
    var last := |pods| - 1;
    if last > 0 {
      TallyAfterHead(t.After(pods[last]), pods[..last]);
      assert pods[..last][1..] == pods[1..][..last - 1];
    }
  }

  lemma {:induction false} VerdictAt(t: Tally, pods: seq<PodStatus>, i: nat)
    requires i < |pods|
    ensures Verdicts(t, pods)[i] == TallyBefore(t, pods, i).Verdict(pods[i])
    decreases |pods|
  {
    var last := |pods| - 1;
    if i < last {
      VerdictAt(t.After(pods[last]), pods[..last], i);
      assert pods[i + 1..][..last - i - 1] == pods[..last][i + 1..];
    }
  }

  // Judging requests lowers counts and leaves the threshold alone.
  lemma {:induction false} TallyOnlyFalls(t: Tally, pods: seq<PodStatus>)
    ensures TallyAfter(t, pods).threshold == t.threshold
    ensures forall c :: t.Count(c) - |pods| <= TallyAfter(t, pods).Count(c) <= t.Count(c)
    decreases |pods|
  {
    if pods != [] {
      TallyOnlyFalls(t.After(pods[|pods| - 1]), pods[..|pods| - 1]);
    }
  }

  // ----- a batch in terms of its pods -----

  // Whether a criterion counts the pod.
  predicate HasStatus(pod: PodStatus, c: Criterion) {
    match c
    case Scheduled => pod.scheduled
    case Running => pod.running
    case Ready => pod.ready
    case _ => pod.available
  }

  // How many pods a criterion counts, according to the summary.
  function CountIn(summary: PodProtector.Summary, c: Criterion): int {
    match c
    case Scheduled => summary.scheduled
    case Running => summary.running
    case Ready => summary.ready
    case _ => summary.available
  }

  // The positions from i on whose pods are let go and counted by c.
  ghost function Taken(pods: seq<PodStatus>, results: seq<Result>, c: Criterion, i: nat): set<nat>
    requires |results| == |pods|
  {
    set j: nat | i <= j < |pods| && (results[j].Ok? || results[j].AlreadyUnhealthy?) && HasStatus(pods[j], c)
  }

  lemma TakenHead(pods: seq<PodStatus>, results: seq<Result>, c: Criterion, i: nat)
    requires i < |results| == |pods|
    ensures |Taken(pods, results, c, i)| ==
      |Taken(pods, results, c, i + 1)| +
        if (results[i].Ok? || results[i].AlreadyUnhealthy?) && HasStatus(pods[i], c) then 1 else 0
  {
    var own := if (results[i].Ok? || results[i].AlreadyUnhealthy?) && HasStatus(pods[i], c) then {i} else {};
    assert Taken(pods, results, c, i) == own + Taken(pods, results, c, i + 1);
  }

  // Whichever criteria are mixed: what a batch takes from a count is the pods it lets go that this criterion counts.
  lemma {:induction false} CountsFallByTaken(t: Tally, pods: seq<PodStatus>, c: Criterion, i: nat)
    requires i <= |pods|
    ensures TallyAfter(t, pods[i..]).Count(c) == t.Count(c) - |Taken(pods, Verdicts(t, pods), c, i)|
    decreases |pods| - i
  {
    if i == |pods| {
      assert Taken(pods, Verdicts(t, pods), c, i) == {};
    } else {
      CountsFallByTaken(t, pods, c, i + 1);
      TakenHead(pods, Verdicts(t, pods), c, i);
      VerdictAt(t, pods, i);
      TallyAfterHead(t, pods[i..]);
      assert pods[i..][1..] == pods[i + 1..];
    }
  }

  lemma VerdictMeans(t: Tally, pod: PodStatus)
    ensures t.Verdict(pod) ==
      if t.threshold.remaining == Some(0) then Retry
      else if !HasStatus(pod, pod.criterion) then AlreadyUnhealthy
      else if t.Count(pod.criterion) <= t.threshold.reject then Denied
      else if t.Count(pod.criterion) <= t.threshold.retry then Retry
      else Ok
  {
  }

  lemma TallyMeans(minAvailable: int, summary: PodProtector.Summary, maxConcurrentLag: int, c: Criterion)
    ensures var t, lag := MakeTally(minAvailable, summary, maxConcurrentLag), summary.available - summary.estimated;
      && t.Count(c) == CountIn(summary, c) && t.threshold.reject == minAvailable
      && t.threshold.retry == minAvailable + lag
      && (t.threshold.remaining == Some(0) <==> maxConcurrentLag != 0 && maxConcurrentLag == lag)
  {
  }

  // The result of a request when its criterion still counts `left` pods and there are `lag` admissions not reflected.
  function ResultFor(minAvailable: int, lag: int, maxConcurrentLag: int, left: int, counted: bool): Result {
    if maxConcurrentLag != 0 && maxConcurrentLag == lag then Retry
    else if !counted then AlreadyUnhealthy
    else if left <= minAvailable then Denied
    else if left <= minAvailable + lag then Retry
    else Ok
  }

  // The result at a position from the counts of the summary and the results after it.
  ghost predicate JudgedByCounts(minAvailable: int, summary: PodProtector.Summary, maxConcurrentLag: int,
                                 pods: seq<PodStatus>, results: seq<Result>, i: nat)
    requires i < |results| == |pods|
  {
    var c, lag := pods[i].criterion, summary.available - summary.estimated;
    var left := CountIn(summary, c) - |Taken(pods, results, c, i + 1)|;
    results[i] == ResultFor(minAvailable, lag, maxConcurrentLag, left, HasStatus(pods[i], c))
  }

  lemma JudgedExactly(minAvailable: int, summary: PodProtector.Summary, maxConcurrentLag: int, pods: seq<PodStatus>,
                      i: nat)
    requires i < |pods|
    ensures var t := MakeTally(minAvailable, summary, maxConcurrentLag);
      JudgedByCounts(minAvailable, summary, maxConcurrentLag, pods, Verdicts(t, pods), i)
  {
    var t := MakeTally(minAvailable, summary, maxConcurrentLag);
    VerdictAt(t, pods, i);
    CountsFallByTaken(t, pods, pods[i].criterion, i + 1);
    TallyOnlyFalls(t, pods[i + 1..]);
  }

  // After an Ok, at least MinAvailable pods of its criterion are left of those counted, and at least as many more as
  // there are admissions the counts do not reflect, whatever was let go before it under any criterion.
  lemma OkLeavesFloor(minAvailable: int, summary: PodProtector.Summary, maxConcurrentLag: int, pods: seq<PodStatus>,
                      results: seq<Result>, i: nat)
    requires i < |results| == |pods| && results[i].Ok?
    requires JudgedByCounts(minAvailable, summary, maxConcurrentLag, pods, results, i)
    ensures CountIn(summary, pods[i].criterion) - |Taken(pods, results, pods[i].criterion, i)| >=
      minAvailable + Max(0, summary.available - summary.estimated)
  {
    TakenHead(pods, results, pods[i].criterion, i);
  }

  // The criterion whose count judges a request.
  function Judged(c: Criterion): Criterion {
    if c.Unknown? then Available else c
  }

  // The same at the end of the batch, for a criterion under which there is an Ok.
  ghost predicate FloorKept(minAvailable: int, summary: PodProtector.Summary, maxConcurrentLag: int,
                            pods: seq<PodStatus>, c: Criterion) {
    var results := Verdicts(MakeTally(minAvailable, summary, maxConcurrentLag), pods);
    OkUnder(pods, results, c) ==>
      CountIn(summary, c) - |Taken(pods, results, c, 0)| >=
        minAvailable + Max(0, summary.available - summary.estimated)
  }

  ghost predicate OkUnder(pods: seq<PodStatus>, results: seq<Result>, c: Criterion)
    requires |results| == |pods|
  {
    exists i :: 0 <= i < |pods| && results[i].Ok? && Judged(pods[i].criterion) == Judged(c)
  }

  // A pod that c counts comes before a contributor judged by c, and is itself judged by another criterion.
  predicate Overtakes(pods: seq<PodStatus>, c: Criterion, j: nat, i: nat) {
    && j < i < |pods| && HasStatus(pods[i], c) && Judged(pods[i].criterion) == Judged(c)
    && HasStatus(pods[j], c) && Judged(pods[j].criterion) != Judged(c)
  }

  lemma KeptUnlessOvertaken(minAvailable: int, summary: PodProtector.Summary, maxConcurrentLag: int,
                            pods: seq<PodStatus>, c: Criterion)
    requires forall i, j :: !Overtakes(pods, c, j, i)
    ensures FloorKept(minAvailable, summary, maxConcurrentLag, pods, c)
  {
    var results := Verdicts(MakeTally(minAvailable, summary, maxConcurrentLag), pods);
    if i :| 0 <= i < |pods| && results[i].Ok? && Judged(pods[i].criterion) == Judged(c) {
      JudgedExactly(minAvailable, summary, maxConcurrentLag, pods, i);
      var m := First(pods, results, c, i);
      assert m < i ==> !Overtakes(pods, c, m, i);
      JudgedExactly(minAvailable, summary, maxConcurrentLag, pods, m);
      OkLeavesFloor(minAvailable, summary, maxConcurrentLag, pods, results, m);
      assert Taken(pods, results, c, m) == Taken(pods, results, pods[m].criterion, m);
    }
  }

  // The first position taken from the count of c.
  lemma {:induction false} First(pods: seq<PodStatus>, results: seq<Result>, c: Criterion, i: nat) returns (m: nat)
    requires |results| == |pods| && i in Taken(pods, results, c, 0)
    ensures m <= i && m in Taken(pods, results, c, 0) && Taken(pods, results, c, m) == Taken(pods, results, c, 0)
  {
    m := i;
    if j :| j in Taken(pods, results, c, 0) && j < i {
      m := First(pods, results, c, j);
    }
  }

  // Counts that let everything from position i on go and leave exactly MinAvailable for c.
  function Tight(minAvailable: int, pods: seq<PodStatus>, c: Criterion, n: nat): PodProtector.Summary {
    var high, own := minAvailable + |pods| + 1, minAvailable + 1 + n;
    var available := if Judged(c).Available? then own else high;
    PodProtector.Summary(
      0, available, if c.Ready? then own else high, if c.Scheduled? then own else high,
      if c.Running? then own else high, 0, available)
  }

  lemma TightLetsGo(minAvailable: int, pods: seq<PodStatus>, c: Criterion, n: nat, k: nat)
    requires k < |pods|
    ensures var summary := Tight(minAvailable, pods, c, n);
      var results := Verdicts(MakeTally(minAvailable, summary, 0), pods);
      && (Judged(pods[k].criterion) != Judged(c) ==> results[k].Ok? || results[k].AlreadyUnhealthy?)
      && (Judged(pods[k].criterion) == Judged(c) && |Taken(pods, results, c, k + 1)| <= n ==>
          results[k] == if HasStatus(pods[k], c) then Ok else AlreadyUnhealthy)
  {
    var summary := Tight(minAvailable, pods, c, n);
    var results := Verdicts(MakeTally(minAvailable, summary, 0), pods);
    var own := pods[k].criterion;
    TightCounts(minAvailable, pods, c, n, own);
    hide Tight, Verdicts;
    JudgedExactly(minAvailable, summary, 0, pods, k);
    var left := CountIn(summary, own) - |Taken(pods, results, own, k + 1)|;
    assert results[k] == ResultFor(minAvailable, 0, 0, left, HasStatus(pods[k], own));
    hide JudgedByCounts, CountIn;
    TakenBounded(pods, results, own, k + 1);
    if Judged(own) == Judged(c) {
      SameJudge(pods, results, own, c, k);
    }
    hide Taken, HasStatus, Judged;
  }

  lemma SameJudge(pods: seq<PodStatus>, results: seq<Result>, a: Criterion, b: Criterion, k: nat)
    requires k < |results| == |pods| && Judged(a) == Judged(b)
    ensures HasStatus(pods[k], a) == HasStatus(pods[k], b)
    ensures Taken(pods, results, a, k + 1) == Taken(pods, results, b, k + 1)
  {
  }

  lemma TightCounts(minAvailable: int, pods: seq<PodStatus>, c: Criterion, n: nat, own: Criterion)
    ensures var summary := Tight(minAvailable, pods, c, n);
      && summary.estimated == summary.available
      && CountIn(summary, own) == minAvailable + 1 + if Judged(own) == Judged(c) then n else |pods|
  {
  }

  lemma {:induction false} TakenBounded(pods: seq<PodStatus>, results: seq<Result>, c: Criterion, i: nat)
    requires i <= |results| == |pods|
    ensures |Taken(pods, results, c, i)| <= |pods| - i
    decreases |pods| - i
  {
    if i == |pods| {
      assert Taken(pods, results, c, i) == {};
    } else {
      TakenHead(pods, results, c, i);
      TakenBounded(pods, results, c, i + 1);
    }
  }

  // All the pods from position k on that c counts.
  function Counted(pods: seq<PodStatus>, c: Criterion, k: nat): nat
    decreases |pods| - k
  {
    if k >= |pods| then 0 else Counted(pods, c, k + 1) + if HasStatus(pods[k], c) then 1 else 0
  }

  lemma {:induction false} TightTakesAll(minAvailable: int, pods: seq<PodStatus>, c: Criterion, n: nat, k: nat)
    requires k <= |pods| && Counted(pods, c, k) <= n + 1
    ensures var results := Verdicts(MakeTally(minAvailable, Tight(minAvailable, pods, c, n), 0), pods);
      |Taken(pods, results, c, k)| == Counted(pods, c, k)
    decreases |pods| - k
  {
    var results := Verdicts(MakeTally(minAvailable, Tight(minAvailable, pods, c, n), 0), pods);
    if k == |pods| {
      assert Taken(pods, results, c, k) == {};
    } else {
      TightTakesAll(minAvailable, pods, c, n, k + 1);
      TakenHead(pods, results, c, k);
      TightLetsGo(minAvailable, pods, c, n, k);
    }
  }

  lemma OvertakenIsBelow(minAvailable: int, pods: seq<PodStatus>, c: Criterion, j: nat, i: nat)
    requires Overtakes(pods, c, j, i)
    ensures !FloorKept(minAvailable, Tight(minAvailable, pods, c, Counted(pods, c, i + 1)), 0, pods, c)
  {
    var n := Counted(pods, c, i + 1);
    var results := Verdicts(MakeTally(minAvailable, Tight(minAvailable, pods, c, n), 0), pods);
    TightTakesAll(minAvailable, pods, c, n, i + 1);
    TightTakesAll(minAvailable, pods, c, n, i);
    TightLetsGo(minAvailable, pods, c, n, i);
    TightLetsGo(minAvailable, pods, c, n, j);
    assert results[i].Ok?;
    assert OkUnder(pods, results, c);
    assert j in Taken(pods, results, c, 0) && Taken(pods, results, c, i) <= Taken(pods, results, c, 0);
    hide Taken, HasStatus, Judged, OkUnder, Counted, Verdicts;
    Smaller(Taken(pods, results, c, i), Taken(pods, results, c, 0), j);
    TightCounts(minAvailable, pods, c, n, c);
  }

  lemma Smaller<T>(a: set<T>, b: set<T>, x: T)
    requires a <= b && x in b && x !in a
    ensures |a| < |b|
  {
    assert b == a + {x} + (b - a - {x});
  }

  // Whatever the counts, a batch leaves the floor of a criterion under which it admits exactly when no pod that this
  // criterion counts is judged by another one after a contributor judged by it.
  lemma FloorKeptIff(minAvailable: int, pods: seq<PodStatus>, c: Criterion)
    ensures (forall summary, maxConcurrentLag :: FloorKept(minAvailable, summary, maxConcurrentLag, pods, c)) <==>
      forall i, j :: !Overtakes(pods, c, j, i)
  {
    if i, j :| Overtakes(pods, c, j, i) {
      OvertakenIsBelow(minAvailable, pods, c, j, i);
    } else {
      forall summary, maxConcurrentLag ensures FloorKept(minAvailable, summary, maxConcurrentLag, pods, c) {
        KeptUnlessOvertaken(minAvailable, summary, maxConcurrentLag, pods, c);
      }
    }
  }

  // A pod taken later under another criterion is not stopped by the count of the first: of two available pods and a
  // minimum of one both go, one judged by availability and the other by readiness.
  lemma OtherCriterionTakesMore()
    ensures
      var summary := PodProtector.Summary(10, 2, 10, 10, 10, 0, 2);
      var pods := [PodStatus(Ready, true, true, true, true), PodStatus(Available, true, true, true, true)];
      var results := Verdicts(MakeTally(1, summary, 0), pods);
      && results == [Ok, Ok]
      && CountIn(summary, Available) - |Taken(pods, results, Available, 0)| == 0
  {
    var summary := PodProtector.Summary(10, 2, 10, 10, 10, 0, 2);
    var pods := [PodStatus(Ready, true, true, true, true), PodStatus(Available, true, true, true, true)];
    var results := Verdicts(MakeTally(1, summary, 0), pods);
    JudgedExactly(1, summary, 0, pods, 0);
    JudgedExactly(1, summary, 0, pods, 1);
    TakenHead(pods, results, Available, 0);
    TakenHead(pods, results, Available, 1);
    TakenHead(pods, results, Ready, 1);
    assert Taken(pods, results, Available, 2) == {} && Taken(pods, results, Ready, 2) == {};
  }

  class State {
    var scheduled: int
    var running: int
    var ready: int
    var available: int
    var threshold: Threshold

    ghost function Value(): Tally
      reads this
    {
      Tally(scheduled, running, ready, available, threshold)
    }

    constructor MakeState(minAvailable: int, summary: PodProtector.Summary, maxConcurrentLag: int)
      ensures Value() == MakeTally(minAvailable, summary, maxConcurrentLag)
    {
      var lag := summary.available - summary.estimated;
      scheduled, running, ready, available := summary.scheduled, summary.running, summary.ready, summary.available;
      threshold := Threshold(minAvailable, minAvailable + lag,
        if maxConcurrentLag == 0 then None else Some(maxConcurrentLag - lag));
    }

    method AdmitBatchItem(pod: PodStatus) returns (result: Result)
      modifies this
      ensures result == old(Value()).Verdict(pod)
      ensures Value() == old(Value()).After(pod)
    {
      result := GetResult(pod);
      if result.ShouldDisrupt() {
        DisruptState(pod);
      }
    }

    method GetResult(pod: PodStatus) returns (result: Result)
      ensures result == Value().Verdict(pod)
    {
      if threshold.remaining == Some(0) {
        return Retry;
      }
      match pod.criterion {
        case Scheduled => return GetResultForCriterion(scheduled, pod.scheduled, threshold);
        case Running => return GetResultForCriterion(running, pod.running, threshold);
        case Ready => return GetResultForCriterion(ready, pod.ready, threshold);
        case _ => return GetResultForCriterion(available, pod.available, threshold);
      }
    }

    // The decrement of the remaining budget goes to a copy, because the accessor of the
    // optional has a value receiver (util/optional/optional.go:162-168): the field keeps its value.
    method DisruptState(pod: PodStatus)
      modifies this
      ensures Value() == old(Value()).Without(pod) && threshold == old(threshold)
      ensures forall c :: Value().Count(c) == old(Value()).Count(c) - (if HasStatus(pod, c) then 1 else 0)
    {
      if pod.scheduled { scheduled := scheduled - 1; }
      if pod.running { running := running - 1; }
      if pod.ready { ready := ready - 1; }
      if pod.available { available := available - 1; }
      var copied := threshold.remaining;
      if copied.Some? {
        copied := Some(copied.value - 1);
      }
    }
  }

  method AdmitBatch(minAvailable: int, summary: PodProtector.Summary, pods: seq<PodStatus>, maxConcurrentLag: int)
    returns (results: array<Result>)
    ensures fresh(results) && results[..] == Verdicts(MakeTally(minAvailable, summary, maxConcurrentLag), pods)
    ensures forall i :: 0 <= i < |pods| ==>
      JudgedByCounts(minAvailable, summary, maxConcurrentLag, pods, results[..], i)
  {
    var state := new State.MakeState(minAvailable, summary, maxConcurrentLag);
    ghost var t := state.Value();
    results := new Result[|pods|](_ => Ok);
    var id := |pods|;
    while id > 0
      invariant 0 <= id <= |pods| && fresh(state) && fresh(results)
      invariant state.Value() == TallyAfter(t, pods[id..])
      invariant forall i :: id <= i < |pods| ==> results[i] == Verdicts(t, pods)[i]
    {
      id := id - 1;
      VerdictAt(t, pods, id);
      TallyAfterHead(t, pods[id..]);
      assert pods[id..][1..] == pods[id + 1..];
      var result := state.AdmitBatchItem(pods[id]);
      results[id] := result;
    }
    assert results[..] == Verdicts(t, pods);
    forall i | 0 <= i < |pods| ensures JudgedByCounts(minAvailable, summary, maxConcurrentLag, pods, results[..], i) {
      JudgedExactly(minAvailable, summary, maxConcurrentLag, pods, i);
    }
  }

  // ----- properties of a batch -----

  // The admissions of contributing pods under one criterion are a prefix of the processing
  // order (a suffix of the batch): once one is refused, every earlier request is refused too.
  lemma AdmissionsArePrefix(t: Tally, pods: seq<PodStatus>, earlier: nat, later: nat)
    requires earlier < later < |pods|
    requires pods[earlier].Contributes() && pods[later].Contributes()
    requires pods[earlier].criterion == pods[later].criterion
    ensures Verdicts(t, pods)[earlier].ShouldDisrupt() ==> Verdicts(t, pods)[later].ShouldDisrupt()
  {
    VerdictAt(t, pods, earlier);
    VerdictAt(t, pods, later);
    TallyOnlyFalls(t, pods[later + 1..]);
    TallyAfterSplit(t, pods[earlier + 1..], pods[later + 1..], pods[earlier + 1..later + 1]);
    TallyOnlyFalls(TallyBefore(t, pods, later), pods[earlier + 1..later + 1]);
  }

  lemma {:induction false} TallyAfterSplit(t: Tally, all: seq<PodStatus>, later: seq<PodStatus>,
                                           earlier: seq<PodStatus>)
    requires all == earlier + later
    ensures TallyAfter(t, all) == TallyAfter(TallyAfter(t, later), earlier)
    decreases |later|
  {
    if later == [] {
      assert all == earlier;
    } else {
      var last := |later| - 1;
      assert all[..|all| - 1] == earlier + later[..last];
      TallyAfterSplit(t.After(later[last]), all[..|all| - 1], later[..last], earlier);
    }
  }

  // Every admission of a contributing pod leaves its count at or above MinAvailable and at or
  // above MinAvailable + lag, however criteria are mixed in the batch.
  lemma AdmissionKeepsFloor(t: Tally, pods: seq<PodStatus>, i: nat)
    requires i < |pods| && pods[i].Contributes() && Verdicts(t, pods)[i].ShouldDisrupt()
    ensures Verdicts(t, pods)[i].Ok?
    ensures TallyAfter(t, pods[i..]).Count(pods[i].criterion) >= t.Floor()
  {
    VerdictAt(t, pods, i);
    TallyAfterHead(t, pods[i..]);
    assert pods[i..][1..] == pods[i + 1..];
    TallyOnlyFalls(t, pods[i + 1..]);
  }

  // All requests are judged by the count of one criterion.
  ghost predicate OneCriterion(pods: seq<PodStatus>, c: Criterion) {
    forall i :: 0 <= i < |pods| ==> Judged(pods[i].criterion) == Judged(c)
  }

  ghost predicate AllContribute(pods: seq<PodStatus>) {
    forall i :: 0 <= i < |pods| ==> pods[i].Contributes()
  }

  // How many of n contributors under one criterion are admitted.
  function Admitted(t: Tally, c: Criterion, n: nat): nat {
    if t.Exhausted() then 0 else Min(n, Max(0, t.Count(c) - t.Floor()))
  }

  // One request judged by the count of c.
  lemma OneRequest(t: Tally, c: Criterion, pod: PodStatus)
    requires Judged(pod.criterion) == Judged(c)
    ensures var ok := !t.Exhausted() && pod.Contributes() && t.Count(c) > t.Floor();
      && (t.Verdict(pod).Ok? <==> ok)
      && (t.Verdict(pod).ShouldDisrupt() <==> ok || (!t.Exhausted() && !pod.Contributes()))
      && t.After(pod).Count(c) == t.Count(c) - (if ok then 1 else 0)
      && t.After(pod).threshold == t.threshold
  {
  }

  // Exactly the last Admitted positions are Ok, and all others get the same refusal.
  lemma {:induction false} ContributorsAdmittedExactly(t: Tally, c: Criterion, pods: seq<PodStatus>)
    requires OneCriterion(pods, c) && AllContribute(pods)
    ensures forall i :: 0 <= i < |pods| ==>
      (Verdicts(t, pods)[i].Ok? <==> |pods| - Admitted(t, c, |pods|) <= i)
    ensures forall i :: 0 <= i < |pods| - Admitted(t, c, |pods|) ==>
      Verdicts(t, pods)[i] ==
        if !t.Exhausted() && Min(t.Count(c), t.Floor()) <= t.threshold.reject then Denied else Retry
    decreases |pods|
  {
    if pods != [] {
      var last := |pods| - 1;
      var rest := pods[..last];
      assert OneCriterion(rest, c) && Judged(pods[last].criterion) == Judged(c) && pods[last].Contributes();
      OneRequest(t, c, pods[last]);
      ContributorsAdmittedExactly(t.After(pods[last]), c, rest);
    }
  }

  function OkCount(results: seq<Result>): nat {
    if results == [] then 0 else OkCount(results[..|results| - 1]) + (if results[|results| - 1].Ok? then 1 else 0)
  }

  // The requests whose pod contributes to the count that judges it.
  function Contributors(pods: seq<PodStatus>): (n: nat)
    ensures n <= |pods|
  {
    if pods == [] then 0
    else Contributors(pods[..|pods| - 1]) + (if pods[|pods| - 1].Contributes() then 1 else 0)
  }

  // However many other requests the batch holds, Admitted of its contributors are Ok.
  lemma {:induction false} OkCountOfContributors(t: Tally, c: Criterion, pods: seq<PodStatus>)
    requires OneCriterion(pods, c)
    ensures OkCount(Verdicts(t, pods)) == Admitted(t, c, Contributors(pods))
    decreases |pods|
  {
    if pods != [] {
      var last := |pods| - 1;
      OneRequest(t, c, pods[last]);
      OkCountOfContributors(t.After(pods[last]), c, pods[..last]);
      var verdicts := Verdicts(t, pods);
      assert verdicts[..last] == Verdicts(t.After(pods[last]), pods[..last]);
      hide t.Verdict, t.After, t.Count, Judged;
    }
  }

  // ----- the budget -----

  // How many requests of a batch get a new bucket: the Ok ones and those for pods already unhealthy.
  function Disruptions(t: Tally, pods: seq<PodStatus>): (n: nat)
    ensures n <= |pods|
    decreases |pods|
  {
    if pods == [] then 0
    else
      var last := |pods| - 1;
      Disruptions(t.After(pods[last]), pods[..last]) + (if t.Verdict(pods[last]).ShouldDisrupt() then 1 else 0)
  }

  // Every request for a pod already unhealthy gets one, and so do the contributors the count leaves room for.
  lemma {:induction false} DisruptionsExactly(t: Tally, c: Criterion, pods: seq<PodStatus>)
    requires OneCriterion(pods, c)
    ensures Disruptions(t, pods) ==
      if t.Exhausted() then 0 else |pods| - Contributors(pods) + Admitted(t, c, Contributors(pods))
    decreases |pods|
  {
    if pods != [] {
      var last := |pods| - 1;
      OneRequest(t, c, pods[last]);
      DisruptionsExactly(t.After(pods[last]), c, pods[..last]);
    }
  }

  // MaxConcurrentLag promises at most `remaining` further buckets. Because the budget is never
  // decremented, the promise is kept exactly when the budget is already used up, or the batch is no
  // larger, or its unhealthy pods and the room the count leaves do not exceed it. A negative budget
  // is never recognised as used up.
  lemma BudgetKeptIff(t: Tally, c: Criterion, pods: seq<PodStatus>)
    requires OneCriterion(pods, c) && t.threshold.remaining.Some?
    ensures var budget := Max(0, t.threshold.remaining.value);
      Disruptions(t, pods) <= budget <==>
        || t.threshold.remaining == Some(0)
        || |pods| <= budget
        || |pods| - Contributors(pods) + Max(0, t.Count(c) - t.Floor()) <= budget
  {
    DisruptionsExactly(t, c, pods);
  }

  // The contributors judged by the count of c.
  function ContributorsTo(pods: seq<PodStatus>, c: Criterion): nat {
    if pods == [] then 0
    else
      var pod := pods[|pods| - 1];
      ContributorsTo(pods[..|pods| - 1], c) + (if pod.Contributes() && Judged(pod.criterion) == c then 1 else 0)
  }

  // The contributors judged by c that fit above the floor of their count.
  function Room(t: Tally, pods: seq<PodStatus>, c: Criterion): nat {
    Min(ContributorsTo(pods, c), Max(0, t.Count(c) - t.Floor()))
  }

  lemma RoomOfOne(t: Tally, pods: seq<PodStatus>, c: Criterion)
    requires pods != []
    ensures var pod := pods[|pods| - 1];
      Room(t.After(pod), pods[..|pods| - 1], c)
        + (if t.Verdict(pod).ShouldDisrupt() && pod.Contributes() && Judged(pod.criterion) == c then 1 else 0)
        <= Room(t, pods, c)
  {
    var pod := pods[|pods| - 1];
    TallyOnlyFalls(t, [pod]);
    assert [pod][..0] == [] && TallyAfter(t, [pod]) == TallyAfter(t.After(pod), []);
    if Judged(pod.criterion) == c {
      OneRequest(t, c, pod);
    }
  }

  function MixedBound(t: Tally, pods: seq<PodStatus>): nat {
    |pods| - Contributors(pods)
      + Room(t, pods, Scheduled) + Room(t, pods, Running) + Room(t, pods, Ready) + Room(t, pods, Available)
  }

  // What a batch that mixes criteria uses up at most, whatever the budget: admitting under one
  // criterion only takes room from the others.
  lemma {:induction false} MixedDisruptionsBound(t: Tally, pods: seq<PodStatus>)
    ensures t.Exhausted() ==> Disruptions(t, pods) == 0
    ensures Disruptions(t, pods) <= MixedBound(t, pods)
    decreases |pods|
  {
    if pods != [] {
      RoomOfOne(t, pods, Scheduled);
      RoomOfOne(t, pods, Running);
      RoomOfOne(t, pods, Ready);
      RoomOfOne(t, pods, Available);
      hide Room, TallyAfter;
      MixedDisruptionsBound(t.After(pods[|pods| - 1]), pods[..|pods| - 1]);
    }
  }

  // A pod that counts towards nothing but its own criterion.
  function Alone(pod: PodStatus): PodStatus {
    var c, own := Judged(pod.criterion), pod.Contributes();
    PodStatus(pod.criterion, own && c.Scheduled?, own && c.Running?, own && c.Ready?, own && c.Available?)
  }

  function AllAlone(pods: seq<PodStatus>): (r: seq<PodStatus>)
    ensures |r| == |pods|
  {
    seq(|pods|, i requires 0 <= i < |pods| => Alone(pods[i]))
  }

  // Admitting such a pod takes no room from the others.
  lemma RoomOfAlone(t: Tally, pods: seq<PodStatus>, c: Criterion)
    requires pods != [] && !t.Exhausted() && !c.Unknown?
    ensures var pod := Alone(pods[|pods| - 1]);
      Room(t.After(pod), pods[..|pods| - 1], c)
        + (if t.Verdict(pod).ShouldDisrupt() && pod.Contributes() && Judged(pod.criterion) == c then 1 else 0)
        == Room(t, pods, c)
  {
    var pod := Alone(pods[|pods| - 1]);
    assert pod.Contributes() <==> pods[|pods| - 1].Contributes();
    if Judged(pod.criterion) == c {
      OneRequest(t, c, pod);
    }
  }

  lemma AloneStep(t: Tally, pods: seq<PodStatus>)
    requires pods != [] && !t.Exhausted()
    ensures var pod := Alone(pods[|pods| - 1]);
      MixedBound(t, pods) ==
        MixedBound(t.After(pod), pods[..|pods| - 1]) + (if t.Verdict(pod).ShouldDisrupt() then 1 else 0)
  {
    var last, pod := |pods| - 1, Alone(pods[|pods| - 1]);
    RoomOfAlone(t, pods, Scheduled);
    RoomOfAlone(t, pods, Running);
    RoomOfAlone(t, pods, Ready);
    RoomOfAlone(t, pods, Available);
    OneRequest(t, pod.criterion, pod);
    assert pod.Contributes() <==> pods[last].Contributes();
    assert Judged(pod.criterion) in {Scheduled, Running, Ready, Available};
    hide Room, Alone, Judged, t.Verdict, t.After, t.Count, t.Floor, pod.Contributes;
  }

  // When no pod counts towards the criterion of another, the bound is what the batch uses up.
  lemma {:induction false} AloneReachesBound(t: Tally, pods: seq<PodStatus>)
    requires !t.Exhausted()
    ensures Disruptions(t, AllAlone(pods)) == MixedBound(t, pods)
    decreases |pods|
  {
    if pods != [] {
      var last, pod := |pods| - 1, Alone(pods[|pods| - 1]);
      var next, alone := t.After(pod), AllAlone(pods);
      assert alone[..last] == AllAlone(pods[..last]) && alone[last] == pod;
      OneRequest(t, pod.criterion, pod);
      assert !next.Exhausted();
      hide MixedBound, Alone, AllAlone, Judged, t.Verdict, t.After, t.Count, t.Exhausted;
      AloneStep(t, pods);
      AloneReachesBound(next, pods[..last]);
    } else {
      assert AllAlone(pods) == [] && MixedBound(t, pods) == 0;
    }
  }

  // The same criteria, and the same pods contribute to their own.
  ghost predicate SameContributors(a: seq<PodStatus>, b: seq<PodStatus>) {
    && |a| == |b|
    && forall i :: 0 <= i < |a| ==>
      a[i].criterion == b[i].criterion && (a[i].Contributes() <==> b[i].Contributes())
  }

  lemma {:induction false} SameBound(t: Tally, a: seq<PodStatus>, b: seq<PodStatus>)
    requires SameContributors(a, b)
    ensures Contributors(a) == Contributors(b)
    ensures forall c :: ContributorsTo(a, c) == ContributorsTo(b, c)
    decreases |a|
  {
    if a != [] {
      SameBound(t, a[..|a| - 1], b[..|b| - 1]);
    }
  }

  // From the criteria and who contributes to its own, a batch is known to stay within the budget, whatever else its
  // pods count towards, exactly when the budget is already used up or its unhealthy pods and the room for each
  // criterion fit.
  lemma MixedBudgetIff(t: Tally, pods: seq<PodStatus>)
    requires t.threshold.remaining.Some?
    ensures var budget := Max(0, t.threshold.remaining.value);
      (forall other :: SameContributors(pods, other) ==> Disruptions(t, other) <= budget) <==>
        t.threshold.remaining == Some(0) || MixedBound(t, pods) <= budget
  {
    forall other | SameContributors(pods, other)
      ensures t.Exhausted() ==> Disruptions(t, other) == 0
      ensures Disruptions(t, other) <= MixedBound(t, pods)
    {
      MixedDisruptionsBound(t, other);
      SameBound(t, pods, other);
    }
    assert SameContributors(pods, AllAlone(pods));
    if !t.Exhausted() {
      AloneReachesBound(t, pods);
    }
  }

  // Whatever the counts and the criteria, only the size of a batch guarantees that it stays within the budget.
  lemma BudgetGuaranteedIff(t: Tally, n: nat)
    requires t.threshold.remaining.Some?
    ensures var budget := Max(0, t.threshold.remaining.value);
      (forall pods :: |pods| == n ==> Disruptions(t, pods) <= budget) <==>
        t.threshold.remaining == Some(0) || n <= budget
  {
    var pods := seq(n, _ => PodStatus(Available, false, false, false, false));
    assert Contributors(pods) == 0 by { NoContributors(pods); }
    DisruptionsExactly(t, Available, pods);
    assert |pods| == n;
    forall pods: seq<PodStatus> ensures t.Exhausted() ==> Disruptions(t, pods) == 0 {
      MixedDisruptionsBound(t, pods);
    }
  }

  lemma {:induction false} NoContributors(pods: seq<PodStatus>)
    requires forall i :: 0 <= i < |pods| ==> !pods[i].Contributes()
    ensures Contributors(pods) == 0
  {
    if pods != [] {
      NoContributors(pods[..|pods| - 1]);
    }
  }

  // Three available pods, no lag, a limit of one concurrent admission: both deletions of a batch
  // are admitted, be they of available pods or of pods already unavailable.
  lemma BudgetOverrun(available: bool)
    ensures
      var pod := PodStatus(Available, true, true, available, available);
      var t := MakeTally(1, PodProtector.Summary(3, 3, 3, 3, 3, 0, 3), 1);
      && t.threshold.remaining == Some(1)
      && Verdicts(t, [pod, pod]) == if available then [Ok, Ok] else [AlreadyUnhealthy, AlreadyUnhealthy]
  {
    var pod := PodStatus(Available, true, true, available, available);
    var t := MakeTally(1, PodProtector.Summary(3, 3, 3, 3, 3, 0, 3), 1);
    VerdictAt(t, [pod, pod], 0);
    VerdictAt(t, [pod, pod], 1);
    assert [pod, pod][2..] == [];
    assert [pod, pod][1..] == [pod];
    assert TallyAfter(t, [pod]) == TallyAfter(t.After(pod), []);
  }

  // Every pod that c counts is judged by c.
  ghost predicate JudgedByOwn(pods: seq<PodStatus>, c: Criterion) {
    forall i :: 0 <= i < |pods| && HasStatus(pods[i], c) ==> Judged(pods[i].criterion) == Judged(c)
  }

  // Then only Ok results take pods from the count of c, and when there is one, the floor is left.
  lemma OwnKeepsFloor(minAvailable: int, summary: PodProtector.Summary, maxConcurrentLag: int, pods: seq<PodStatus>,
                      c: Criterion)
    requires JudgedByOwn(pods, c)
    ensures var results := Verdicts(MakeTally(minAvailable, summary, maxConcurrentLag), pods);
      var taken := Taken(pods, results, c, 0);
      && (forall i :: i in taken ==> results[i].Ok?)
      && (taken != {} ==>
          CountIn(summary, c) - |taken| >= minAvailable + Max(0, summary.available - summary.estimated))
  {
    var results := Verdicts(MakeTally(minAvailable, summary, maxConcurrentLag), pods);
    var taken := Taken(pods, results, c, 0);
    forall i | i in taken ensures results[i].Ok? {
      JudgedExactly(minAvailable, summary, maxConcurrentLag, pods, i);
    }
    KeptUnlessOvertaken(minAvailable, summary, maxConcurrentLag, pods, c);
    if i :| i in taken {
      assert OkUnder(pods, results, c);
    }
  }
}
