/**
 The whole protocol: any number of webhook replicas and one aggregator per cell update one stored
 PodProtector by compare-and-swap, each from a read that may be stale. What every run keeps,
 whatever the informers show.
 */
module AdmissionProtocol {
  import opened Common
  import opened PodProtector
  import opened PoolAdapter
  import opened Reexecution
  import opened BucketFacts
  import Aggregator
  import Quota

  // Fixed for a run: the configuration, the informer shards of each cell and the names of the pods.
  datatype Env = Env(cfg: Config, shards: CellId -> nat, hash: string -> nat, name: Pod -> string) {
    ghost predicate Valid() {
      cfg.compactThreshold >= 1 && forall c :: shards(c) > 0
    }

    // The informer shard that sees the events of pod p.
    function Shard(p: Pod): (k: nat)
      requires Valid()
      ensures k < shards(p.cell)
    {
      hash(name(p)) % shards(p.cell)
    }

    // The sync time an aggregator compares with a bucket of pod p: that of its shard when the bucket has its name.
    function Horizon(sync: seq<Time>, p: Pod): Time
      requires Valid() && |sync| == shards(p.cell)
    {
      if RecordedName(cfg, name, p) == "" then Aggregator.MinOf(sync) else sync[Shard(p)]
    }
  }

  // One set for each status that a criterion looks at.
  datatype ByStatus<T> = ByStatus(scheduled: set<T>, running: set<T>, ready: set<T>, available: set<T>) {
    function Of(q: Quota.Criterion): set<T> {
      match q
      case Scheduled => scheduled
      case Running => running
      case Ready => ready
      case _ => available
    }
  }

  function Join(a: ByStatus<Pod>, b: ByStatus<Pod>): ByStatus<Pod> {
    ByStatus(a.scheduled + b.scheduled, a.running + b.running, a.ready + b.ready, a.available + b.available)
  }

  // The aggregator's cache of a cell: the pods seen with each status, and the sync time of each shard.
  datatype Informer = Informer(view: ByStatus<Uid>, sync: seq<Time>)

  datatype WebhookCall = WebhookCall(version: nat, args: seq<Item>, now: Time, written: Ppr, results: seq<ItemResult>)

  datatype AggregatorCall = AggregatorCall(version: nat, informer: Informer, written: Option<Ppr>)

  datatype State = State(
    history: seq<Ppr>,              // every stored version; the last one is current
    pods: ByStatus<Pod>,            // the pods that have each status now
    ever: ByStatus<Pod>,            // those that ever had it
    admitted: map<Pod, Time>,       // the pods admitted for deletion, with the time of the last admission
    informers: map<CellId, Informer>,
    listed: map<CellId, Informer>,  // what its informers showed when the aggregator of a cell last listed pods
    webhooks: map<nat, WebhookCall>,
    aggregators: map<CellId, AggregatorCall>,
    snapshots: map<CellId, Informer> // what the stored aggregation of a cell was counted from
  ) {
    ghost predicate Valid() {
      history != []
    }

    function Version(): nat
      requires Valid()
    {
      |history| - 1
    }

    function Current(): Ppr
      requires Valid()
    {
      history[|history| - 1]
    }

    // The pods that the guarantee for a criterion is about.
    function Unadmitted(q: Quota.Criterion): set<Pod> {
      pods.Of(q) - admitted.Keys
    }

    function Snapshot(c: CellId, q: Quota.Criterion): set<Uid> {
      if c in snapshots then snapshots[c].view.Of(q) else {}
    }
  }

  ghost predicate Init(env: Env, s: State) {
    && env.Valid()
    && |s.history| == 1 && s.history[0].cells == [] && s.history[0].summary == SummaryOf([])
    && s.pods == s.ever && s.admitted == map[]
    && s.informers == map[] && s.listed == map[] && s.webhooks == map[]
    && s.aggregators == map[] && s.snapshots == map[]
  }

  // ----- steps -----

  // Pods gain statuses at any time, and lose them through admitted deletions only.
  ghost predicate PodsChange(s: State, s': State, pods: ByStatus<Pod>) {
    && (forall q :: s.pods.Of(q) <= pods.Of(q) + s.admitted.Keys)
    && s' == s.(pods := pods, ever := Join(s.ever, pods))
  }

  // All that a view shows has had the status at some time.
  ghost predicate Shown(ever: ByStatus<Pod>, c: CellId, view: ByStatus<Uid>) {
    forall q, u :: u in view.Of(q) ==> Pod(c, u) in ever.Of(q)
  }

  ghost predicate Wider(a: ByStatus<Pod>, b: ByStatus<Pod>) {
    forall q :: a.Of(q) <= b.Of(q)
  }

  ghost predicate LaterThan(a: seq<Time>, b: seq<Time>) {
    |a| == |b| && forall k :: 0 <= k < |a| ==> a[k] <= b[k]
  }

  // An informer shows pods that had the status at some time; its sync times only advance.
  ghost predicate InformerAdvances(env: Env, s: State, s': State, c: CellId, informer: Informer)
    requires env.Valid()
  {
    && |informer.sync| == env.shards(c)
    && Shown(s.ever, c, informer.view)
    && (c in s.informers ==> LaterThan(s.informers[c].sync, informer.sync))
    && s' == s.(informers := s.informers[c := informer])
  }

  // A webhook executes a batch on some version, stale or not, without filling a history.
  ghost predicate WebhookExecutes(env: Env, s: State, s': State, id: nat, call: WebhookCall)
    requires env.Valid() && s.Valid()
  {
    && id !in s.webhooks && call.version < |s.history|
    && WebhookComputes(env, s.history[call.version], call)
    && s' == s.(webhooks := s.webhooks[id := call])
  }

  ghost predicate WebhookComputes(env: Env, read: Ppr, call: WebhookCall)
    requires env.Valid()
  {
    && (forall i :: 0 <= i < |call.args| ==> call.args[i].name == env.name(PodOf(call.args[i])))
    && exists counted, extended ::
      && Round(env.cfg, read, call.args, call.now, counted, extended, call.written, call.results)
      && Within(env.cfg.compactThreshold, extended)
  }

  // The pods a call may answer positively for.
  function AdmittedBy(call: WebhookCall): set<Pod> {
    set i | 0 <= i < |call.args| && i < |call.results| && call.results[i].Admits() :: PodOf(call.args[i])
  }

  // The update succeeds when the version read is current; without a change nothing is sent.
  ghost predicate WebhookCommits(s: State, s': State, id: nat)
    requires s.Valid()
  {
    && id in s.webhooks
    && var call := s.webhooks[id];
    && call.version == s.Version() && call.written != s.Current()
    && s' == s.(
      history := s.history + [call.written],
      admitted := map p | p in s.admitted.Keys + AdmittedBy(call) ::
        if p in AdmittedBy(call) then call.now else s.admitted[p],
      webhooks := s.webhooks - {id})
  }

  // The call ends without an update: a conflict, a failure, or nothing to change.
  ghost predicate WebhookEnds(s: State, s': State, id: nat) {
    s' == s.(webhooks := s.webhooks - {id})
  }

  // An aggregator lists the pods of its cell first.
  ghost predicate AggregatorLists(s: State, s': State, c: CellId) {
    c in s.informers && c !in s.aggregators && s' == s.(listed := s.listed[c := s.informers[c]])
  }

  // Then it reads the sync times of the shards, one after the other while they advance; the version is any it has seen.
  ghost predicate AggregatorReads(env: Env, s: State, s': State, c: CellId, call: AggregatorCall)
    requires env.Valid() && s.Valid()
  {
    && c in s.informers && c in s.listed && c !in s.aggregators
    && call.version < |s.history| && call.informer.view == s.listed[c].view
    && LaterThan(s.listed[c].sync, call.informer.sync) && LaterThan(call.informer.sync, s.informers[c].sync)
    && |call.informer.sync| == env.shards(c)
    && AggregatorComputes(env, s.history[call.version], c, call)
    && s' == s.(listed := s.listed - {c}, aggregators := s.aggregators[c := call])
  }

  ghost predicate AggregatorComputes(env: Env, read: Ppr, c: CellId, call: AggregatorCall)
    requires env.Valid() && |call.informer.sync| == env.shards(c)
  {
    exists pods ::
      && (forall q :: |Aggregator.Having(pods, q)| == |call.informer.view.Of(q)|)
      && Aggregator.Reconciles(env.cfg, read, c, pods, Aggregator.Shards(call.informer.sync, env.hash), call.written)
  }

  ghost predicate AggregatorCommits(s: State, s': State, c: CellId)
    requires s.Valid()
  {
    && c in s.aggregators
    && var call := s.aggregators[c];
    && call.version == s.Version() && call.written.Some?
    && s' == s.(
      history := s.history + [call.written.value],
      snapshots := s.snapshots[c := call.informer],
      aggregators := s.aggregators - {c})
  }

  ghost predicate AggregatorEnds(s: State, s': State, c: CellId) {
    s' == s.(aggregators := s.aggregators - {c})
  }

  // Somebody edits the spec.
  ghost predicate SpecChanges(s: State, s': State, minAvailable: int)
    requires s.Valid()
  {
    s' == s.(history := s.history + [s.Current().(minAvailable := minAvailable)])
  }

  ghost predicate Next(env: Env, s: State, s': State)
    requires env.Valid() && s.Valid()
  {
    || (exists pods :: PodsChange(s, s', pods))
    || (exists c, informer :: InformerAdvances(env, s, s', c, informer))
    || (exists id, call :: WebhookExecutes(env, s, s', id, call))
    || (exists id :: WebhookCommits(s, s', id))
    || (exists id :: WebhookEnds(s, s', id))
    || (exists c :: AggregatorLists(s, s', c))
    || (exists c, call :: AggregatorReads(env, s, s', c, call))
    || (exists c :: AggregatorCommits(s, s', c))
    || (exists c :: AggregatorEnds(s, s', c))
    || (exists m :: SpecChanges(s, s', m))
  }

  // ----- the invariant -----

  // What every stored version looks like.
  ghost predicate Sane(env: Env, ppr: Ppr)
    requires env.Valid()
  {
    && AllProper(env.cfg, env.name, ppr.cells) && DistinctIds(ppr.cells) && Within(env.cfg.compactThreshold, ppr.cells)
    && ppr.summary == SummaryOf(ppr.cells)
  }

  // An admitted pod still has the bucket of its last admission, or the stored snapshot of its cell is newer than that.
  ghost predicate Timed(env: Env, s: State, p: Pod)
    requires env.Valid() && s.Valid() && p in s.admitted
  {
    Recorded(s.Current().cells, p, s.admitted[p]) || Outdated(env, s, p)
  }

  ghost predicate Outdated(env: Env, s: State, p: Pod)
    requires env.Valid() && p in s.admitted
  {
    && p.cell in s.snapshots && |s.snapshots[p.cell].sync| == env.shards(p.cell)
    && s.admitted[p] < env.Horizon(s.snapshots[p.cell].sync, p)
  }

  // Only admitted pods have buckets.
  ghost predicate BucketsInv(s: State)
    requires s.Valid()
  {
    forall y: Item {:trigger HasBucket(s.Current().cells, y)} ::
      HasBucket(s.Current().cells, y) ==> PodOf(y) in s.admitted
  }

  ghost predicate InformersInv(env: Env, s: State)
    requires env.Valid()
  {
    && (forall q :: s.ever.Of(q) <= s.pods.Of(q) + s.admitted.Keys)
    && (forall c :: c in s.informers ==>
      |s.informers[c].sync| == env.shards(c) && Shown(s.ever, c, s.informers[c].view))
    && (forall c :: c in s.listed ==> ListedInv(s, c))
    && (forall c :: c in s.snapshots ==>
      && c in s.informers && LaterThan(s.snapshots[c].sync, s.informers[c].sync)
      && Shown(s.ever, c, s.snapshots[c].view))
  }

  // What an aggregator has listed is not newer than its informers and not older than the stored snapshot.
  ghost predicate ListedInv(s: State, c: CellId)
    requires c in s.listed
  {
    && c !in s.aggregators && Shown(s.ever, c, s.listed[c].view)
    && c in s.informers && LaterThan(s.listed[c].sync, s.informers[c].sync)
    && (c in s.snapshots ==> LaterThan(s.snapshots[c].sync, s.listed[c].sync))
  }

  // Each count of the cell is the number of pods that its snapshot shows with that status.
  ghost predicate CountsSnapshot(s: State, cell: Cell) {
    forall q :: CountOfStatus(cell.aggregation, q) == |s.Snapshot(cell.id, q)|
  }

  ghost predicate CellsInv(env: Env, s: State)
    requires env.Valid() && s.Valid()
  {
    && (forall i :: 0 <= i < |s.Current().cells| ==> CountsSnapshot(s, s.Current().cells[i]))
    && (forall c :: c in s.snapshots ==> HasCell(s.Current().cells, c))
  }

  ghost predicate HasCell(cells: seq<Cell>, c: CellId) {
    exists i :: 0 <= i < |cells| && cells[i].id == c
  }

  ghost predicate CallsInv(env: Env, s: State)
    requires env.Valid() && s.Valid()
  {
    && (forall id :: id in s.webhooks ==>
      s.webhooks[id].version < |s.history| && WebhookComputes(env, s.history[s.webhooks[id].version], s.webhooks[id]))
    && (forall c :: c in s.aggregators ==> AggregatorCallInv(env, s, c, s.aggregators[c]))
  }

  ghost predicate AggregatorCallInv(env: Env, s: State, c: CellId, call: AggregatorCall)
    requires env.Valid() && s.Valid()
  {
    && call.version < |s.history| && |call.informer.sync| == env.shards(c)
    && Shown(s.ever, c, call.informer.view)
    && AggregatorComputes(env, s.history[call.version], c, call)
    && c in s.informers && LaterThan(call.informer.sync, s.informers[c].sync)
    && (c in s.snapshots ==> LaterThan(s.snapshots[c].sync, call.informer.sync))
  }

  ghost predicate Inv(env: Env, s: State) {
    && env.Valid() && s.Valid()
    && Sane(env, s.Current()) && BucketsInv(s)
    && InformersInv(env, s) && CellsInv(env, s) && CallsInv(env, s)
    && forall p :: p in s.admitted ==> Timed(env, s, p)
  }

  lemma InitInv(env: Env, s: State)
    requires Init(env, s)
    ensures Inv(env, s)
  {
  }

  // ----- preservation -----

  ghost predicate InformersAdvance(s: State, s': State) {
    forall c :: c in s.informers ==> c in s'.informers && LaterThan(s.informers[c].sync, s'.informers[c].sync)
  }

  // Calls in flight survive every step: a new version only makes them stale.
  lemma CallsSurvive(env: Env, s: State, s': State)
    requires env.Valid() && s.Valid() && CallsInv(env, s)
    requires s.history <= s'.history && Wider(s.ever, s'.ever) && InformersAdvance(s, s')
    requires forall id :: id in s'.webhooks ==> id in s.webhooks && s'.webhooks[id] == s.webhooks[id]
    requires forall c :: c in s'.aggregators ==>
      && c in s.aggregators && s'.aggregators[c] == s.aggregators[c]
      && (c in s'.snapshots ==> c in s.snapshots && s'.snapshots[c] == s.snapshots[c])
    ensures CallsInv(env, s')
  {
    forall id | id in s'.webhooks
      ensures s'.webhooks[id].version < |s'.history|
      ensures WebhookComputes(env, s'.history[s'.webhooks[id].version], s'.webhooks[id])
    {
      assert id in s.webhooks;
    }
    forall c | c in s'.aggregators ensures AggregatorCallInv(env, s', c, s'.aggregators[c]) {
      AggregatorCallSurvives(env, s, s', c);
    }
  }

  lemma AggregatorCallSurvives(env: Env, s: State, s': State, c: CellId)
    requires env.Valid() && s.Valid() && c in s.aggregators && c in s'.aggregators
    requires s'.aggregators[c] == s.aggregators[c]
    requires AggregatorCallInv(env, s, c, s.aggregators[c])
    requires s.history <= s'.history && Wider(s.ever, s'.ever) && InformersAdvance(s, s')
    requires c in s'.snapshots ==> c in s.snapshots && s'.snapshots[c] == s.snapshots[c]
    ensures AggregatorCallInv(env, s', c, s'.aggregators[c])
  {
    var call := s.aggregators[c];
    assert s'.history[call.version] == s.history[call.version];
    assert LaterThan(call.informer.sync, s'.informers[c].sync) by {
      assert LaterThan(s.informers[c].sync, s'.informers[c].sync);
    }
  }

  // Steps that store nothing keep the admissions accounted for.
  lemma SameStoreInv(env: Env, s: State, s': State)
    requires Inv(env, s) && s'.history == s.history && s'.admitted == s.admitted && s'.snapshots == s.snapshots
    requires InformersInv(env, s') && CallsInv(env, s')
    ensures Inv(env, s')
  {
    forall p | p in s'.admitted ensures Timed(env, s', p) {
      assert Timed(env, s, p);
    }
    forall i | 0 <= i < |s'.Current().cells| ensures CountsSnapshot(s', s'.Current().cells[i]) {
      assert CountsSnapshot(s, s.Current().cells[i]);
    }
    assert forall c :: c in s'.snapshots ==> HasCell(s.Current().cells, c);
  }

  lemma InformersSurvive(env: Env, s: State, s': State)
    requires env.Valid() && InformersInv(env, s)
    requires s'.informers == s.informers && s'.snapshots == s.snapshots && s'.listed == s.listed
    requires s'.aggregators.Keys <= s.aggregators.Keys && Wider(s.ever, s'.ever)
    requires forall q :: s'.ever.Of(q) <= s'.pods.Of(q) + s'.admitted.Keys
    ensures InformersInv(env, s')
  {
    hide LaterThan;
    forall c | c in s'.listed ensures ListedInv(s', c) { assert ListedInv(s, c); }
  }

  lemma PodStepInv(env: Env, s: State, s': State, pods: ByStatus<Pod>)
    requires Inv(env, s) && PodsChange(s, s', pods)
    ensures Inv(env, s')
  {
    InformersSurvive(env, s, s');
    CallsSurvive(env, s, s');
    hide InformersInv, CallsInv;
    SameStoreInv(env, s, s');
  }

  lemma InformerStepInv(env: Env, s: State, s': State, c: CellId, informer: Informer)
    requires Inv(env, s) && InformerAdvances(env, s, s', c, informer)
    ensures Inv(env, s')
  {
    CallsSurvive(env, s, s');
    InformerKeepsOthers(env, s, s', c, informer);
    hide CallsInv, InformersInv, InformerAdvances;
    SameStoreInv(env, s, s');
  }

  lemma InformerKeepsOthers(env: Env, s: State, s': State, c: CellId, informer: Informer)
    requires env.Valid() && InformersInv(env, s) && InformerAdvances(env, s, s', c, informer)
    ensures InformersInv(env, s')
    ensures s'.history == s.history && s'.admitted == s.admitted && s'.snapshots == s.snapshots
  {
    forall d | d in s'.listed ensures ListedInv(s', d) { assert ListedInv(s, d); }
  }

  lemma EndStepInv(env: Env, s: State, s': State)
    requires Inv(env, s)
    requires (exists id :: WebhookEnds(s, s', id)) || (exists c :: AggregatorEnds(s, s', c))
    ensures Inv(env, s')
  {
    InformersSurvive(env, s, s');
    CallsSurvive(env, s, s');
    hide InformersInv, CallsInv;
    SameStoreInv(env, s, s');
  }

  lemma AggregatorListsInv(env: Env, s: State, s': State, c: CellId)
    requires Inv(env, s) && AggregatorLists(s, s', c)
    ensures Inv(env, s')
  {
    ListsInformers(env, s, s', c);
    CallsSurvive(env, s, s');
    hide InformersInv, CallsInv;
    SameStoreInv(env, s, s');
  }

  lemma ListsInformers(env: Env, s: State, s': State, c: CellId)
    requires env.Valid() && InformersInv(env, s) && AggregatorLists(s, s', c)
    ensures InformersInv(env, s')
  {
    forall d | d in s'.listed ensures ListedInv(s', d) { assert d != c ==> ListedInv(s, d); }
  }

  lemma WebhookExecutesInv(env: Env, s: State, s': State, id: nat, call: WebhookCall)
    requires Inv(env, s) && WebhookExecutes(env, s, s', id, call)
    ensures Inv(env, s')
  {
    InformersSurvive(env, s, s');
    ExecutesCalls(env, s, s', id, call);
    hide InformersInv, CallsInv, WebhookComputes;
    SameStoreInv(env, s, s');
  }

  lemma ExecutesCalls(env: Env, s: State, s': State, id: nat, call: WebhookCall)
    requires env.Valid() && s.Valid() && CallsInv(env, s) && WebhookExecutes(env, s, s', id, call)
    ensures CallsInv(env, s')
  {
    hide WebhookComputes, AggregatorComputes, LaterThan;
    forall c | c in s'.aggregators ensures AggregatorCallInv(env, s', c, s'.aggregators[c]) {
      assert AggregatorCallInv(env, s, c, s.aggregators[c]);
    }
    hide AggregatorCallInv;
    forall i | i in s'.webhooks
      ensures s'.webhooks[i].version < |s'.history|
      ensures WebhookComputes(env, s'.history[s'.webhooks[i].version], s'.webhooks[i])
    {
      assert i != id ==> i in s.webhooks;
    }
  }

  lemma AggregatorReadsInv(env: Env, s: State, s': State, c: CellId, call: AggregatorCall)
    requires Inv(env, s) && AggregatorReads(env, s, s', c, call)
    ensures Inv(env, s')
  {
    ReadsInformers(env, s, s', c, call);
    ReadsCalls(env, s, s', c, call);
    hide InformersInv, CallsInv, AggregatorComputes, LaterThan;
    SameStoreInv(env, s, s');
  }

  lemma ReadsInformers(env: Env, s: State, s': State, c: CellId, call: AggregatorCall)
    requires env.Valid() && s.Valid() && InformersInv(env, s) && AggregatorReads(env, s, s', c, call)
    ensures InformersInv(env, s')
  {
    hide AggregatorComputes, LaterThan;
    forall d | d in s'.listed ensures ListedInv(s', d) { assert ListedInv(s, d); }
  }

  lemma ReadsCalls(env: Env, s: State, s': State, c: CellId, call: AggregatorCall)
    requires env.Valid() && s.Valid() && InformersInv(env, s) && CallsInv(env, s)
    requires AggregatorReads(env, s, s', c, call)
    ensures CallsInv(env, s')
  {
    assert ListedInv(s, c);
    forall d | d in s'.aggregators ensures AggregatorCallInv(env, s', d, s'.aggregators[d]) {
      if d != c {
        AggregatorCallSurvives(env, s, s', d);
      }
    }
  }

  lemma SpecStepInv(env: Env, s: State, s': State, minAvailable: int)
    requires Inv(env, s) && SpecChanges(s, s', minAvailable)
    ensures Inv(env, s')
  {
    InformersSurvive(env, s, s');
    CallsSurvive(env, s, s');
    hide InformersInv, CallsInv;
    forall p | p in s'.admitted ensures Timed(env, s', p) {
      assert Timed(env, s, p);
    }
  }

  // ----- the webhook's update -----

  // b extends a: the same cells with the same aggregations, then cells without aggregation.
  ghost predicate ExtendsCells(a: seq<Cell>, b: seq<Cell>) {
    && |a| <= |b|
    && (forall i :: 0 <= i < |a| ==> b[i].id == a[i].id && b[i].aggregation == a[i].aggregation)
    && (forall i :: |a| <= i < |b| ==> b[i].aggregation == NO_AGGREGATION)
  }

  lemma {:induction false} AdmitAllExtends(cfg: Config, cells: seq<Cell>, t: Quota.Tally, items: seq<Item>, now: Time)
    ensures ExtendsCells(cells, AdmitAll(cfg, cells, t, items, now))
    decreases |items|
  {
    if items != [] {
      var last := |items| - 1;
      AdmitAllExtends(cfg, AdmitOne(cfg, cells, t, items[last], now), t.After(items[last].status), items[..last], now);
    }
  }

  // The effect of one uncompacted round on the stored cells.
  lemma RoundEffect(env: Env, read: Ppr, call: WebhookCall, counted: seq<Cell>, extended: seq<Cell>)
    requires env.Valid() && Sane(env, read)
    requires forall i :: 0 <= i < |call.args| ==> call.args[i].name == env.name(PodOf(call.args[i]))
    requires Round(env.cfg, read, call.args, call.now, counted, extended, call.written, call.results)
    requires Within(env.cfg.compactThreshold, extended)
    ensures Permuted(read.cells, counted) && Permuted(extended, call.written.cells)
    ensures Sane(env, call.written) && ExtendsCells(read.cells, call.written.cells)
  {
    var threshold, t := env.cfg.compactThreshold, TallyOf(env.cfg, read.minAvailable, counted);
    var refreshed, items := RefreshAll(counted, call.args, call.now), UndeterminedItems(counted, call.args);
    hide Decides, HasBucket, RefreshAll, AdmitAll, TallyOf, SummaryOf;
    WithinIsPermuted(threshold, read.cells, counted);
    PermutedProper(env.cfg, env.name, read.cells, counted);
    RefreshAllKeepsUids(counted, call.args, call.now);
    SameButStartProper(env.cfg, env.name, counted, refreshed);
    AdmitAllProper(env.cfg, env.name, refreshed, t, items, call.now);
    AdmitAllExtends(env.cfg, refreshed, t, items, call.now);
    WithinIsPermuted(threshold, extended, call.written.cells);
    PermutedProper(env.cfg, env.name, extended, call.written.cells);
  }

  // After the round, a pod answered positively has a bucket of this round, and any other keeps its own.
  lemma RoundRecords(env: Env, read: Ppr, call: WebhookCall, counted: seq<Cell>, extended: seq<Cell>, p: Pod,
                     time: Time)
    requires env.Valid()
    requires Round(env.cfg, read, call.args, call.now, counted, extended, call.written, call.results)
    requires Permuted(read.cells, counted) && Permuted(extended, call.written.cells)
    ensures p in AdmittedBy(call) ==> Recorded(call.written.cells, p, call.now)
    ensures p !in AdmittedBy(call) && Recorded(read.cells, p, time) ==> Recorded(call.written.cells, p, time)
  {
    var t := TallyOf(env.cfg, read.minAvailable, counted);
    var refreshed, items := RefreshAll(counted, call.args, call.now), UndeterminedItems(counted, call.args);
    PermutedRecorded(read.cells, counted, p, time);
    RefreshAllRecorded(counted, call.args, call.now, p, time);
    AdmitAllRecorded(env.cfg, refreshed, t, items, call.now, p, time);
    AdmitAllRecorded(env.cfg, refreshed, t, items, call.now, p, call.now);
    PermutedRecorded(extended, call.written.cells, p, time);
    PermutedRecorded(extended, call.written.cells, p, call.now);
    if p in AdmittedBy(call) {
      var i :| 0 <= i < |call.args| && call.results[i].Admits() && PodOf(call.args[i]) == p;
      if HasBucket(counted, call.args[i]) {
        assert Refreshes(counted, call.args, p);
      } else if !Admitted(t, items, call.args[i]) {
        NotAdmitted(counted, t, call.args, call.results, i);
      }
    } else {
      RefreshedIsAdmitted(counted, t, call, p);
    }
  }

  lemma RefreshedIsAdmitted(cells: seq<Cell>, t: Quota.Tally, call: WebhookCall, p: Pod)
    requires Decides(cells, t, call.args, call.results)
    ensures Refreshes(cells, call.args, p) ==> p in AdmittedBy(call)
  {
    if Refreshes(cells, call.args, p) {
      var i :| 0 <= i < |call.args| && PodOf(call.args[i]) == p && HasBucket(cells, call.args[i]);
      assert call.results[i].Admits();
    }
  }

  // p's bucket survives the call, renewed if the call admits p.
  ghost predicate Carries(read: Ppr, call: WebhookCall, p: Pod, time: Time) {
    && (p in AdmittedBy(call) ==> Recorded(call.written.cells, p, call.now))
    && (p !in AdmittedBy(call) && Recorded(read.cells, p, time) ==> Recorded(call.written.cells, p, time))
  }

  lemma WebhookEffect(env: Env, read: Ppr, call: WebhookCall)
    requires env.Valid() && Sane(env, read) && WebhookComputes(env, read, call)
    ensures Sane(env, call.written) && ExtendsCells(read.cells, call.written.cells)
    ensures forall p, time :: Carries(read, call, p, time)
    ensures forall y: Item {:trigger HasBucket(call.written.cells, y)} ::
      HasBucket(call.written.cells, y) ==> HasBucket(read.cells, y) || PodOf(y) in AdmittedBy(call)
  {
    var counted, extended :|
      && Round(env.cfg, read, call.args, call.now, counted, extended, call.written, call.results)
      && Within(env.cfg.compactThreshold, extended);
    RoundEffect(env, read, call, counted, extended);
    forall p, time ensures Carries(read, call, p, time) {
      RoundRecords(env, read, call, counted, extended, p, time);
    }
    forall y: Item | HasBucket(call.written.cells, y)
      ensures HasBucket(read.cells, y) || PodOf(y) in AdmittedBy(call)
    {
      RoundBuckets(env, read, call, counted, extended, y);
    }
  }

  lemma RoundBuckets(env: Env, read: Ppr, call: WebhookCall, counted: seq<Cell>, extended: seq<Cell>, y: Item)
    requires env.Valid()
    requires Round(env.cfg, read, call.args, call.now, counted, extended, call.written, call.results)
    requires Permuted(read.cells, counted) && Permuted(extended, call.written.cells)
    requires HasBucket(call.written.cells, y)
    ensures HasBucket(read.cells, y) || PodOf(y) in AdmittedBy(call)
  {
    hide VerdictsOf, HasBucket, AdmitAll, RefreshAll, SummaryOf;
    var t := TallyOf(env.cfg, read.minAvailable, counted);
    BucketsAfterRound(env.cfg, read, call.args, call.now, counted, extended, call.written, call.results,
                      call.written.cells, y);
    PermutedKeeps(read.cells, counted, AvailableOf, y);
    if Admitted(t, UndeterminedItems(counted, call.args), y) {
      AdmittedAnswers(counted, t, call.args, call.results, y);
      var j :| 0 <= j < |call.args| && Same(call.args[j], y) && call.results[j].Admits();
      assert PodOf(call.args[j]) == PodOf(y);
    }
  }

  lemma WebhookCommitsInv(env: Env, s: State, s': State, id: nat)
    requires Inv(env, s) && WebhookCommits(s, s', id)
    ensures Inv(env, s')
  {
    hide WebhookComputes, AggregatorCallInv, Recorded, Timed, Carries, ExtendsCells, LaterThan, HasCell;
    var call := s.webhooks[id];
    WebhookEffect(env, s.Current(), call);
    assert s'.Current() == call.written;
    ExtensionKeepsCells(env, s, s');
    WebhookTimes(env, s, s', id);
    WebhookCallsInv(env, s, s', id);
    assert BucketsInv(s');
  }

  lemma WebhookCallsInv(env: Env, s: State, s': State, id: nat)
    requires env.Valid() && s.Valid() && CallsInv(env, s) && InformersInv(env, s) && WebhookCommits(s, s', id)
    ensures CallsInv(env, s') && InformersInv(env, s')
  {
    hide WebhookComputes, AggregatorCallInv;
    assert s'.history == s.history + [s.webhooks[id].written];
    CommitGrows(s, s', id);
    InformersSurvive(env, s, s');
    hide InformersInv, ListedInv;
    CallsSurvive(env, s, s');
  }

  lemma WebhookTimes(env: Env, s: State, s': State, id: nat)
    requires env.Valid() && s.Valid() && WebhookCommits(s, s', id)
    requires forall p :: p in s.admitted ==> Timed(env, s, p)
    requires forall p, time :: Carries(s.Current(), s.webhooks[id], p, time)
    ensures forall p :: p in s'.admitted ==> Timed(env, s', p)
    ensures s.admitted.Keys <= s'.admitted.Keys
  {
    assert s'.Current() == s.webhooks[id].written;
    forall p | p in s'.admitted ensures Timed(env, s', p) {
      if p in s.admitted {
        assert Timed(env, s, p);
      }
      assert Carries(s.Current(), s.webhooks[id], p, s'.admitted[p]);
    }
  }

  lemma ExtensionKeepsCells(env: Env, s: State, s': State)
    requires env.Valid() && s.Valid() && s'.Valid() && CellsInv(env, s) && s'.snapshots == s.snapshots
    requires ExtendsCells(s.Current().cells, s'.Current().cells) && DistinctIds(s'.Current().cells)
    ensures CellsInv(env, s')
  {
    var a, b := s.Current().cells, s'.Current().cells;
    forall i | 0 <= i < |b| ensures CountsSnapshot(s', b[i]) {
      if i < |a| {
        assert CountsSnapshot(s, a[i]);
      } else {
        assert forall j :: 0 <= j < |a| ==> a[j].id == b[j].id != b[i].id;
        assert !HasCell(a, b[i].id);
      }
    }
    forall c | c in s'.snapshots ensures HasCell(b, c) {
      var j :| 0 <= j < |a| && a[j].id == c;
      assert b[j].id == c;
    }
  }

  // ----- the aggregator's update -----

  lemma WithCellIds(cells: seq<Cell>, c: CellId)
    requires DistinctIds(cells)
    ensures DistinctIds(Aggregator.WithCell(cells, c))
    ensures Aggregator.WithCell(cells, c)[Aggregator.CellIndex(cells, c)].id == c
    ensures ExtendsCells(cells, Aggregator.WithCell(cells, c))
    ensures forall i :: 0 <= i < |cells| ==> Aggregator.WithCell(cells, c)[i] == cells[i]
    ensures forall i ::
      |cells| <= i < |Aggregator.WithCell(cells, c)| ==> Aggregator.WithCell(cells, c)[i].buckets == []
  {
    FindCellFirst(cells, c, FindCell(cells, c));
  }

  // The cells between the aggregator's edit and its Summarize.
  ghost function Edited(read: Ppr, c: CellId, pods: seq<Aggregator.PodView>, shards: Aggregator.Shards): seq<Cell>
    requires shards.Valid()
  {
    var cells, i := Aggregator.WithCell(read.cells, c), Aggregator.CellIndex(read.cells, c);
    cells[i := Aggregator.ReconciledCell(cells[i], pods, shards)]
  }

  lemma EditIsProper(env: Env, read: Ppr, c: CellId, pods: seq<Aggregator.PodView>, shards: Aggregator.Shards)
    requires env.Valid() && Sane(env, read) && shards.Valid()
    ensures AllProper(env.cfg, env.name, Edited(read, c, pods, shards))
  {
    var cells, i := Aggregator.WithCell(read.cells, c), Aggregator.CellIndex(read.cells, c);
    var edited := Edited(read, c, pods, shards);
    WithCellIds(read.cells, c);
    Aggregator.KeptExactly(shards, cells[i].buckets);
    forall j, b | 0 <= j < |edited| && b in edited[j].buckets ensures Proper(env.cfg, env.name, edited[j].id, b) {
      assert b in cells[j].buckets;
    }
  }

  lemma EditIsPermuted(env: Env, read: Ppr, c: CellId, pods: seq<Aggregator.PodView>, shards: Aggregator.Shards,
                       written: Ppr)
    requires env.Valid() && Sane(env, read) && shards.Valid()
    requires CellsCompactTo(env.cfg.compactThreshold, Edited(read, c, pods, shards), written.cells)
    ensures Permuted(Edited(read, c, pods, shards), written.cells)
    ensures DistinctIds(written.cells) && Within(env.cfg.compactThreshold, written.cells)
  {
    var cells, i := Aggregator.WithCell(read.cells, c), Aggregator.CellIndex(read.cells, c);
    var edited := Edited(read, c, pods, shards);
    WithCellIds(read.cells, c);
    Aggregator.KeptExactly(shards, cells[i].buckets);
    WithinIsPermuted(env.cfg.compactThreshold, edited, written.cells);
  }

  lemma EditEffect(env: Env, read: Ppr, c: CellId, pods: seq<Aggregator.PodView>, shards: Aggregator.Shards,
                   written: Ppr)
    requires env.Valid() && Sane(env, read) && shards.Valid()
    requires CellsCompactTo(env.cfg.compactThreshold, Edited(read, c, pods, shards), written.cells)
    requires written.summary == SummaryOf(written.cells)
    ensures Permuted(Edited(read, c, pods, shards), written.cells) && Sane(env, written)
    ensures forall y: Item {:trigger HasBucket(written.cells, y)} ::
      HasBucket(written.cells, y) ==> HasBucket(read.cells, y)
  {
    var edited := Edited(read, c, pods, shards);
    EditIsProper(env, read, c, pods, shards);
    EditIsPermuted(env, read, c, pods, shards, written);
    hide CellsCompactTo, Edited, Within, AllProper, DistinctIds, Permuted, SummaryOf;
    PermutedProper(env.cfg, env.name, edited, written.cells);
    forall y: Item | HasBucket(written.cells, y) ensures HasBucket(read.cells, y) {
      PermutedKeeps(edited, written.cells, AvailableOf, y);
      EditedHasBucket(read, c, pods, shards, y);
    }
  }

  lemma EditedHasBucket(read: Ppr, c: CellId, pods: seq<Aggregator.PodView>, shards: Aggregator.Shards, y: Item)
    requires shards.Valid() && DistinctIds(read.cells) && HasBucket(Edited(read, c, pods, shards), y)
    ensures HasBucket(read.cells, y)
  {
    var cells, i := Aggregator.WithCell(read.cells, c), Aggregator.CellIndex(read.cells, c);
    var edited := Edited(read, c, pods, shards);
    WithCellIds(read.cells, c);
    Aggregator.KeptExactly(shards, cells[i].buckets);
    HasBucketIff(edited, y);
    HasBucketIff(read.cells, y);
    var d := FindCell(edited, y.cell);
    FindCellFirst(edited, y.cell, d);
    var b :| b in edited[d].buckets && b.uid == Some(y.uid);
    assert b in cells[d].buckets;
    FindCellFirst(read.cells, y.cell, d);
  }

  // The aggregator drops a bucket exactly when it is older than the sync time it is compared with, which is not after
  // the sync time of the shard of its pod.
  lemma DroppedIff(env: Env, sync: seq<Time>, p: Pod, b: Bucket)
    requires env.Valid() && |sync| == env.shards(p.cell)
    requires Proper(env.cfg, env.name, p.cell, b) && b.uid == Some(p.uid)
    ensures Aggregator.Shards(sync, env.hash).Obsolete(b) <==> b.start < env.Horizon(sync, p)
    ensures env.Horizon(sync, p) <= sync[env.Shard(p)]
  {
    Aggregator.MinOfIsLeast(sync);
    assert sync[env.Shard(p)] in sync;
  }

  // What the edit does to the record of an admission.
  lemma EditRecords(env: Env, read: Ppr, c: CellId, pods: seq<Aggregator.PodView>, sync: seq<Time>, p: Pod, time: Time)
    requires env.Valid() && Sane(env, read) && |sync| == env.shards(c)
    ensures Recorded(Edited(read, c, pods, Aggregator.Shards(sync, env.hash)), p, time) <==>
      Recorded(read.cells, p, time) && (p.cell == c ==> env.Horizon(sync, p) <= time)
  {
    EditKeepsRecord(env, read, c, pods, sync, p, time);
    EditAddsNoRecord(env, read, c, pods, sync, p, time);
  }

  lemma EditKeepsRecord(env: Env, read: Ppr, c: CellId, pods: seq<Aggregator.PodView>, sync: seq<Time>, p: Pod,
                        time: Time)
    requires env.Valid() && Sane(env, read) && |sync| == env.shards(c)
    ensures Recorded(read.cells, p, time) && (p.cell == c ==> env.Horizon(sync, p) <= time) ==>
      Recorded(Edited(read, c, pods, Aggregator.Shards(sync, env.hash)), p, time)
  {
    var shards := Aggregator.Shards(sync, env.hash);
    var cells, i := Aggregator.WithCell(read.cells, c), Aggregator.CellIndex(read.cells, c);
    var edited := Edited(read, c, pods, shards);
    WithCellIds(read.cells, c);
    if Recorded(read.cells, p, time) && (p.cell == c ==> env.Horizon(sync, p) <= time) {
      var j :| 0 <= j < |read.cells| && read.cells[j].id == p.cell && RecordedIn(read.cells[j].buckets, p, time);
      var b :| b in read.cells[j].buckets && Records(b, p, time);
      if j == i {
        Aggregator.KeptExactly(shards, cells[i].buckets);
        DroppedIff(env, sync, p, b);
      }
      assert b in edited[j].buckets;
      assert RecordedIn(edited[j].buckets, p, time);
    }
  }

  lemma EditAddsNoRecord(env: Env, read: Ppr, c: CellId, pods: seq<Aggregator.PodView>, sync: seq<Time>, p: Pod,
                         time: Time)
    requires env.Valid() && Sane(env, read) && |sync| == env.shards(c)
    ensures Recorded(Edited(read, c, pods, Aggregator.Shards(sync, env.hash)), p, time) ==>
      Recorded(read.cells, p, time) && (p.cell == c ==> env.Horizon(sync, p) <= time)
  {
    var shards := Aggregator.Shards(sync, env.hash);
    var cells, i := Aggregator.WithCell(read.cells, c), Aggregator.CellIndex(read.cells, c);
    var edited := Edited(read, c, pods, shards);
    WithCellIds(read.cells, c);
    if Recorded(edited, p, time) {
      var j :| 0 <= j < |edited| && edited[j].id == p.cell && RecordedIn(edited[j].buckets, p, time);
      var b :| b in edited[j].buckets && Records(b, p, time);
      Aggregator.KeptExactly(shards, cells[i].buckets);
      assert b in cells[j].buckets && cells[j].id == p.cell;
      assert RecordedIn(read.cells[j].buckets, p, time);
      if p.cell == c {
        assert j == i;
        DroppedIff(env, sync, p, b);
      }
    }
  }

  // What the commit leaves of the records.
  lemma CommitRecords(env: Env, s: State, s': State, c: CellId, p: Pod, time: Time)
    requires Inv(env, s) && AggregatorCommits(s, s', c)
    ensures |s.aggregators[c].informer.sync| == env.shards(c)
    ensures Recorded(s'.Current().cells, p, time) <==>
      Recorded(s.Current().cells, p, time) &&
      (p.cell == c ==> env.Horizon(s.aggregators[c].informer.sync, p) <= time)
  {
    var pods := CommitEdits(env, s, s', c);
    var sync := s.aggregators[c].informer.sync;
    var edited := Edited(s.Current(), c, pods, Aggregator.Shards(sync, env.hash));
    hide *;
    assert env.Valid() && Sane(env, s.Current()) by { InvSane(env, s); }
    EditRecords(env, s.Current(), c, pods, sync, p, time);
    PermutedRecorded(edited, s'.Current().cells, p, time);
    PermutedBack(edited, s'.Current().cells);
    PermutedRecorded(s'.Current().cells, edited, p, time);
  }

  // The update a commit stores.
  lemma CommitEdits(env: Env, s: State, s': State, c: CellId) returns (pods: seq<Aggregator.PodView>)
    requires Inv(env, s) && AggregatorCommits(s, s', c)
    ensures env.Valid() && s.Valid() && s'.Valid() && |s.aggregators[c].informer.sync| == env.shards(c)
    ensures forall q :: |Aggregator.Having(pods, q)| == |s.aggregators[c].informer.view.Of(q)|
    ensures Permuted(
      Edited(s.Current(), c, pods, Aggregator.Shards(s.aggregators[c].informer.sync, env.hash)), s'.Current().cells)
    ensures Sane(env, s'.Current())
    ensures forall y: Item {:trigger HasBucket(s'.Current().cells, y)} ::
      HasBucket(s'.Current().cells, y) ==> HasBucket(s.Current().cells, y)
  {
    var call, read := s.aggregators[c], s.Current();
    assert AggregatorCallInv(env, s, c, call);
    var shards := Aggregator.Shards(call.informer.sync, env.hash);
    pods :|
      && (forall q :: |Aggregator.Having(pods, q)| == |call.informer.view.Of(q)|)
      && Aggregator.Reconciles(env.cfg, read, c, pods, shards, call.written);
    assert s'.Current() == call.written.value && env.Valid() && Sane(env, read);
    hide Inv, AggregatorCallInv, Sane, HasBucket, Permuted;
    EditEffect(env, read, c, pods, shards, call.written.value);
  }

  lemma AggregatorCommitsInv(env: Env, s: State, s': State, c: CellId)
    requires Inv(env, s) && AggregatorCommits(s, s', c)
    ensures Inv(env, s')
  {
    AggregatorEffect(env, s, s', c);
    CallsSurvive(env, s, s');
    AggregatorInformers(env, s, s', c);
  }

  lemma AggregatorInformers(env: Env, s: State, s': State, c: CellId)
    requires env.Valid() && s.Valid() && InformersInv(env, s) && AggregatorCommits(s, s', c)
    requires AggregatorCallInv(env, s, c, s.aggregators[c])
    ensures InformersInv(env, s')
  {
    hide LaterThan, Shown, AggregatorComputes;
    forall d | d in s'.listed ensures ListedInv(s', d) {
      assert ListedInv(s, d);
    }
    hide ListedInv;
  }

  lemma AggregatorEffect(env: Env, s: State, s': State, c: CellId)
    requires Inv(env, s) && AggregatorCommits(s, s', c)
    ensures Sane(env, s'.Current()) && CellsInv(env, s') && BucketsInv(s')
    ensures forall p :: p in s'.admitted ==> Timed(env, s', p)
  {
    var pods := CommitEdits(env, s, s', c);
    assert AggregatorCallInv(env, s, c, s.aggregators[c]);
    hide AggregatorCallInv, Timed, Recorded, Edited, Permuted;
    forall p | p in s'.admitted ensures Timed(env, s', p) {
      assert Timed(env, s, p);
      CommitRecords(env, s, s', c, p, s.admitted[p]);
      AggregatorTimes(env, s, s', c, p);
    }
    AggregatorCells(env, s, s', c, pods);
  }

  // A bucket survives the edit, or its admission is older than the new snapshot; and snapshots only get newer.
  lemma AggregatorTimes(env: Env, s: State, s': State, c: CellId, p: Pod)
    requires env.Valid() && s.Valid() && AggregatorCommits(s, s', c) && p in s.admitted && Timed(env, s, p)
    requires AggregatorCallInv(env, s, c, s.aggregators[c])
    requires Recorded(s'.Current().cells, p, s.admitted[p]) <==>
      Recorded(s.Current().cells, p, s.admitted[p]) &&
      (p.cell == c ==> env.Horizon(s.aggregators[c].informer.sync, p) <= s.admitted[p])
    ensures Timed(env, s', p)
  {
    hide Recorded, AggregatorComputes;
    assert s'.admitted == s.admitted && s'.snapshots == s.snapshots[c := s.aggregators[c].informer];
    if p.cell == c && Outdated(env, s, p) {
      HorizonLater(env, s.snapshots[c].sync, s.aggregators[c].informer.sync, p);
    }
  }

  lemma HorizonLater(env: Env, a: seq<Time>, b: seq<Time>, p: Pod)
    requires env.Valid() && LaterThan(a, b) && |a| == env.shards(p.cell)
    ensures env.Horizon(a, p) <= env.Horizon(b, p)
  {
    Aggregator.MinOfIsLeast(a);
    Aggregator.MinOfIsLeast(b);
    var k :| 0 <= k < |b| && b[k] == Aggregator.MinOf(b);
    assert a[k] in a;
  }

  lemma InvSane(env: Env, s: State)
    requires Inv(env, s)
    ensures env.Valid() && s.Valid() && Sane(env, s.Current())
  {
  }

  lemma PermutedBack(a: seq<Cell>, b: seq<Cell>)
    requires Permuted(a, b)
    ensures Permuted(b, a)
  {
  }

  // The cell at i, now of cluster c, is recounted; the others keep their counts.
  ghost predicate Recounted(a: seq<Cell>, b: seq<Cell>, i: nat, c: CellId, pods: seq<Aggregator.PodView>) {
    && |a| <= |b| && i < |b| && b[i].id == c
    && (forall q :: CountOfStatus(b[i].aggregation, q) == |Aggregator.Having(pods, q)|)
    && (forall j :: 0 <= j < |b| && j != i ==>
      j < |a| && b[j].id == a[j].id != c && b[j].aggregation == a[j].aggregation)
    && (forall j :: 0 <= j < |a| ==> b[j].id == a[j].id)
  }

  lemma EditedCells(env: Env, read: Ppr, c: CellId, pods: seq<Aggregator.PodView>, shards: Aggregator.Shards,
                    b: seq<Cell>)
    requires env.Valid() && Sane(env, read) && shards.Valid() && Permuted(Edited(read, c, pods, shards), b)
    ensures Recounted(read.cells, b, Aggregator.CellIndex(read.cells, c), c, pods)
  {
    var a, i := read.cells, Aggregator.CellIndex(read.cells, c);
    WithCellIds(a, c);
    Aggregator.CountsArePods(pods, Some(shards.Min()));
    forall j | 0 <= j < |b| && j != i
      ensures j < |a| && b[j].id == a[j].id != c && b[j].aggregation == a[j].aggregation
    {
      assert Aggregator.WithCell(a, c)[j].id != Aggregator.WithCell(a, c)[i].id;
    }
  }

  lemma RecountedCells(env: Env, s: State, s': State, c: CellId, i: nat, pods: seq<Aggregator.PodView>)
    requires env.Valid() && s.Valid() && s'.Valid() && CellsInv(env, s)
    requires s'.snapshots.Keys == s.snapshots.Keys + {c}
    requires forall d :: d in s.snapshots && d != c ==> s'.snapshots[d] == s.snapshots[d]
    requires Recounted(s.Current().cells, s'.Current().cells, i, c, pods)
    requires forall q :: |Aggregator.Having(pods, q)| == |s'.snapshots[c].view.Of(q)|
    ensures CellsInv(env, s')
  {
    var a, b := s.Current().cells, s'.Current().cells;
    forall j | 0 <= j < |b| ensures CountsSnapshot(s', b[j]) {
      var id := b[j].id;
      if j != i {
        assert CountsSnapshot(s, a[j]);
      }
    }
    forall d | d in s'.snapshots ensures HasCell(b, d) {
      if d != c {
        assert HasCell(a, d);
        var j :| 0 <= j < |a| && a[j].id == d;
        assert b[j].id == d;
      }
    }
  }

  lemma AggregatorCells(env: Env, s: State, s': State, c: CellId, pods: seq<Aggregator.PodView>)
    requires env.Valid() && s.Valid() && Sane(env, s.Current()) && CellsInv(env, s) && AggregatorCommits(s, s', c)
    requires |s.aggregators[c].informer.sync| == env.shards(c)
    requires forall q :: |Aggregator.Having(pods, q)| == |s.aggregators[c].informer.view.Of(q)|
    requires Permuted(
      Edited(s.Current(), c, pods, Aggregator.Shards(s.aggregators[c].informer.sync, env.hash)), s'.Current().cells)
    ensures CellsInv(env, s')
  {
    var shards := Aggregator.Shards(s.aggregators[c].informer.sync, env.hash);
    EditedCells(env, s.Current(), c, pods, shards, s'.Current().cells);
    hide Recounted, Permuted, Edited, CellsInv, Sane;
    RecountedCells(env, s, s', c, Aggregator.CellIndex(s.Current().cells, c), pods);
  }

  lemma NextInv(env: Env, s: State, s': State)
    requires Inv(env, s) && Next(env, s, s')
    ensures Inv(env, s')
  {
    if pods :| PodsChange(s, s', pods) {
      PodStepInv(env, s, s', pods);
    } else if c, informer :| InformerAdvances(env, s, s', c, informer) {
      InformerStepInv(env, s, s', c, informer);
    } else if id, call :| WebhookExecutes(env, s, s', id, call) {
      WebhookExecutesInv(env, s, s', id, call);
    } else if id :| WebhookCommits(s, s', id) {
      WebhookCommitsInv(env, s, s', id);
    } else if (exists id :: WebhookEnds(s, s', id)) || (exists c :: AggregatorEnds(s, s', c)) {
      EndStepInv(env, s, s');
    } else if c :| AggregatorLists(s, s', c) {
      AggregatorListsInv(env, s, s', c);
    } else if c, call :| AggregatorReads(env, s, s', c, call) {
      AggregatorReadsInv(env, s, s', c, call);
    } else if c :| AggregatorCommits(s, s', c) {
      AggregatorCommitsInv(env, s, s', c);
    } else {
      var m :| SpecChanges(s, s', m);
      SpecStepInv(env, s, s', m);
    }
  }

  // ----- runs -----

  ghost predicate IsRun(env: Env, run: seq<State>) {
    run != [] && Init(env, run[0]) && forall i :: 0 < i < |run| ==> StepTo(env, run, i)
  }

  ghost predicate StepTo(env: Env, run: seq<State>, i: nat)
    requires 0 < i < |run|
  {
    env.Valid() && run[i - 1].Valid() && Next(env, run[i - 1], run[i])
  }

  lemma RunStep(env: Env, run: seq<State>, i: nat)
    requires IsRun(env, run) && 0 < i < |run|
    ensures env.Valid() && run[i - 1].Valid() && Next(env, run[i - 1], run[i])
  {
    hide Init, Next;
    assert StepTo(env, run, i);
  }

  // In every state of every run, whatever the interleaving.
  lemma {:induction false} RunInv(env: Env, run: seq<State>, i: nat)
    requires IsRun(env, run) && i < |run|
    ensures Inv(env, run[i])
  {
    if i == 0 {
      InitInv(env, run[0]);
    } else {
      RunStep(env, run, i);
      hide *;
      RunInv(env, run, i - 1);
      NextInv(env, run[i - 1], run[i]);
    }
  }

  // ----- answers without an update -----

  // A version whose buckets are all for pods in `admitted`.
  ghost predicate BucketsFor(env: Env, ppr: Ppr, admitted: set<Pod>)
    requires env.Valid()
  {
    && Sane(env, ppr)
    && forall y: Item {:trigger HasBucket(ppr.cells, y)} :: HasBucket(ppr.cells, y) ==> PodOf(y) in admitted
  }

  ghost predicate PastInv(env: Env, s: State)
    requires env.Valid()
  {
    forall v :: 0 <= v < |s.history| ==> BucketsFor(env, s.history[v], s.admitted.Keys)
  }

  // Versions and admissions are only ever added.
  ghost predicate Grows(s: State, s': State) {
    s.history <= s'.history && |s'.history| <= |s.history| + 1 && s.admitted.Keys <= s'.admitted.Keys
  }

  lemma NextGrows(env: Env, s: State, s': State)
    requires env.Valid() && s.Valid() && Next(env, s, s')
    ensures Grows(s, s')
  {
    hide Grows, PodsChange, InformerAdvances, WebhookExecutes, WebhookEnds, AggregatorReads, AggregatorEnds;
    hide AggregatorLists, WebhookCommits, AggregatorCommits, SpecChanges;
    if Stores(s, s') {
      StoringGrows(s, s');
    } else if Computes(env, s, s') {
      ComputingKeeps(env, s, s');
    } else {
      OthersKeep(s, s');
    }
  }

  ghost predicate Stores(s: State, s': State)
    requires s.Valid()
  {
    || (exists id :: WebhookCommits(s, s', id))
    || (exists c :: AggregatorCommits(s, s', c))
    || (exists m :: SpecChanges(s, s', m))
  }

  ghost predicate Computes(env: Env, s: State, s': State)
    requires env.Valid() && s.Valid()
  {
    || (exists c, informer :: InformerAdvances(env, s, s', c, informer))
    || (exists id, call :: WebhookExecutes(env, s, s', id, call))
    || (exists c, call :: AggregatorReads(env, s, s', c, call))
  }

  lemma StoringGrows(s: State, s': State)
    requires s.Valid() && Stores(s, s')
    ensures Grows(s, s')
  {
    if id :| WebhookCommits(s, s', id) {
      CommitGrows(s, s', id);
    }
  }

  lemma CommitGrows(s: State, s': State, id: nat)
    requires s.Valid() && WebhookCommits(s, s', id)
    ensures Grows(s, s') && s'.admitted.Keys == s.admitted.Keys + AdmittedBy(s.webhooks[id])
  {
  }

  lemma ComputingKeeps(env: Env, s: State, s': State)
    requires env.Valid() && s.Valid() && Computes(env, s, s')
    ensures Grows(s, s') && s'.history == s.history && s'.admitted == s.admitted
    ensures s'.pods == s.pods && s'.snapshots == s.snapshots
  {
    hide WebhookComputes, AggregatorComputes, LaterThan;
  }

  lemma OthersKeep(s: State, s': State)
    requires
      || (exists pods :: PodsChange(s, s', pods))
      || (exists id :: WebhookEnds(s, s', id))
      || (exists c :: AggregatorLists(s, s', c))
      || (exists c :: AggregatorEnds(s, s', c))
    ensures Grows(s, s') && s'.history == s.history && s'.admitted == s.admitted && s'.snapshots == s.snapshots
    ensures forall q :: s.pods.Of(q) <= s'.pods.Of(q) + s.admitted.Keys
  {
    if id :| WebhookEnds(s, s', id) {
    } else if c :| AggregatorLists(s, s', c) {
    } else if c :| AggregatorEnds(s, s', c) {
    } else {
      var pods :| PodsChange(s, s', pods);
    }
  }

  lemma PastGrows(env: Env, s: State, s': State)
    requires env.Valid() && PastInv(env, s) && Inv(env, s') && Grows(s, s')
    ensures PastInv(env, s')
  {
    assert BucketsFor(env, s'.Current(), s'.admitted.Keys);
    hide Inv, Sane;
    forall v | 0 <= v < |s'.history| ensures BucketsFor(env, s'.history[v], s'.admitted.Keys) {
      if v < |s.history| {
        assert s'.history[v] == s.history[v] && BucketsFor(env, s.history[v], s.admitted.Keys);
      }
    }
  }

  lemma InitPast(env: Env, s: State)
    requires Init(env, s)
    ensures PastInv(env, s)
  {
    forall y: Item ensures !HasBucket(s.history[0].cells, y) { HasBucketIff(s.history[0].cells, y); }
  }

  lemma {:induction false} RunPast(env: Env, run: seq<State>, i: nat)
    requires IsRun(env, run) && i < |run|
    ensures env.Valid() && PastInv(env, run[i])
  {
    if i == 0 {
      InitPast(env, run[0]);
    } else {
      RunStep(env, run, i);
      RunInv(env, run, i);
      hide *;
      RunPast(env, run, i - 1);
      NextGrows(env, run[i - 1], run[i]);
      PastGrows(env, run[i - 1], run[i]);
    }
  }

  // A call that found nothing to change answers without an update, however old the version it read: whoever it lets go
  // has been admitted before.
  lemma UnchangedAnswersAreAdmitted(env: Env, run: seq<State>, i: nat, id: nat)
    requires IsRun(env, run) && i < |run| && id in run[i].webhooks
    requires var call := run[i].webhooks[id];
      call.version < |run[i].history| && call.written == run[i].history[call.version]
    ensures AdmittedBy(run[i].webhooks[id]) <= run[i].admitted.Keys
  {
    var s, call := run[i], run[i].webhooks[id];
    RunInv(env, run, i);
    RunPast(env, run, i);
    var read := s.history[call.version];
    assert WebhookComputes(env, read, call) && BucketsFor(env, read, s.admitted.Keys);
    hide Inv;
    WebhookEffect(env, read, call);
    hide WebhookComputes;
    forall p | p in AdmittedBy(call) ensures p in s.admitted {
      assert Carries(read, call, p, call.now);
      RecordedHas(read.cells, p, call.now);
    }
  }

  lemma RecordedHas(cells: seq<Cell>, p: Pod, time: Time)
    requires DistinctIds(cells) && Recorded(cells, p, time)
    ensures exists y: Item :: HasBucket(cells, y) && PodOf(y) == p
  {
    var y := Item(p.cell, p.uid, "", Quota.PodStatus(Quota.Available, false, false, false, false));
    var i :| 0 <= i < |cells| && cells[i].id == p.cell && RecordedIn(cells[i].buckets, p, time);
    var b :| b in cells[i].buckets && Records(b, p, time);
    FindCellFirst(cells, p.cell, i);
    HasBucketIff(cells, y);
    assert PodOf(y) == p;
  }
}
