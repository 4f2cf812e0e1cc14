/**
 The pool that batches operations by key (util/retrybatch/pool.go), as an interleaving of its
 submitters and of the batch goroutine of each handle. A channel send without buffer is one step
 shared by sender and receiver; a reply goes to a channel with room for one.
 */
module RetryBatch {
  import FusedRc

  type Key = string
  type HandleId = nat
  type SubmitId = nat

  // Where a call of Submit is.
  datatype Phase =
    | Loading                             // about to LoadOrCompute the handle
    | Loaded(h: HandleId, isOld: bool)    // about to acquire it
    | Spawning(h: HandleId)               // acquired a handle it created, about to start its goroutine
    | Sending(h: HandleId)                // on operationCh
    | Waiting(h: HandleId)                // on its resultCh
    | Releasing(h: HandleId)              // has its reply
    | Done
  {
    // Between a successful Acquire and the Release.
    predicate Holds(x: HandleId) {
      (Spawning? || Sending? || Waiting? || Releasing?) && h == x
    }

    // Has loaded x.
    predicate On(x: HandleId) {
      !Loading? && !Done? && h == x
    }

    // Responsible for starting the goroutine of x.
    predicate Creates(x: HandleId) {
      ((Loaded? && !isOld) || Spawning?) && h == x
    }
  }

  datatype Submit = Submit(key: Key, phase: Phase, buffered: bool, replies: nat)

  // Where the batch goroutine of a handle is.
  datatype Worker =
    | NotStarted
    | Poll                                                // first select
    | Select                                              // second select
    | TryFuse                                             // after the idle timeout or on shutdown
    | Batching(batch: seq<SubmitId>)                      // select of processBatch
    | Replying(todo: seq<SubmitId>, keep: seq<SubmitId>)  // sending replies
    | Executing(batch: seq<SubmitId>)                     // inside Adapter.Execute
    | Cleanup                                             // fused, about to delete the handle
    | Exited
  {
    // The requests the goroutine has received and not answered.
    function Members(): multiset<SubmitId> {
      match this
      case Batching(b) => multiset(b)
      case Executing(b) => multiset(b)
      case Replying(todo, keep) => multiset(todo) + multiset(keep)
      case _ => multiset{}
    }

    predicate Fused() {
      Cleanup? || Exited?
    }

    // Ready to receive from operationCh.
    predicate Receives() {
      Poll? || Select? || Batching?
    }
  }

  datatype Handle = Handle(key: Key, rc: int, worker: Worker)

  datatype State = State(
    handles: map<HandleId, Handle>,   // every handle ever allocated
    table: map<Key, HandleId>,        // the map of the pool
    submits: map<SubmitId, Submit>,
    closed: bool)

  const INIT := State(map[], map[], map[], false)

  datatype Step =
    | Begin(id: SubmitId, key: Key)
    | Load(id: SubmitId, newId: HandleId)
    | Acquire(id: SubmitId)
    | Spawn(id: SubmitId)
    | Receive(id: SubmitId)
    | PollEmpty(h: HandleId)
    | Idle(h: HandleId)
    | Fuse(h: HandleId)
    | Clean(h: HandleId)
    | Abort(h: HandleId)
    | Fire(h: HandleId, canceled: seq<SubmitId>, keep: seq<SubmitId>)
    | Return(h: HandleId, retry: bool)
    | Reply(h: HandleId)
    | Resume(h: HandleId)
    | Take(id: SubmitId)
    | Release(id: SubmitId)
    | Close

  function SetPhase(s: State, id: SubmitId, phase: Phase): State
    requires id in s.submits
  {
    s.(submits := s.submits[id := s.submits[id].(phase := phase)])
  }

  function SetHandle(s: State, h: HandleId, rc: int, worker: Worker): State
    requires h in s.handles
  {
    s.(handles := s.handles[h := s.handles[h].(rc := rc, worker := worker)])
  }

  function SetWorker(s: State, h: HandleId, worker: Worker): State
    requires h in s.handles
  {
    SetHandle(s, h, s.handles[h].rc, worker)
  }

  // Whether a step can happen. Acquire excludes the two counts at which the counter panics.
  predicate Enabled(s: State, step: Step) {
    match step
    case Begin(id, key) => id !in s.submits
    case Load(id, newId) => id in s.submits && s.submits[id].phase.Loading? && newId !in s.handles
    case Acquire(id) =>
      && id in s.submits && s.submits[id].phase.Loaded? && s.submits[id].phase.h in s.handles
      && FusedRc.AcquireOutcome(FusedRc.Wrap(s.handles[s.submits[id].phase.h].rc + 1)) != FusedRc.Panic
    case Spawn(id) => id in s.submits && s.submits[id].phase.Spawning? && s.submits[id].phase.h in s.handles
    case Receive(id) =>
      && id in s.submits && s.submits[id].phase.Sending? && s.submits[id].phase.h in s.handles
      && s.handles[s.submits[id].phase.h].worker.Receives()
    case PollEmpty(h) => h in s.handles && s.handles[h].worker.Poll?
    case Idle(h) => h in s.handles && s.handles[h].worker.Select?
    case Fuse(h) => h in s.handles && s.handles[h].worker.TryFuse?
    case Clean(h) => h in s.handles && s.handles[h].worker.Cleanup?
    case Abort(h) => h in s.handles && s.handles[h].worker.Batching? && s.closed
    case Fire(h, canceled, keep) =>
      && h in s.handles && s.handles[h].worker.Batching?
      && multiset(canceled) + multiset(keep) == multiset(s.handles[h].worker.batch)
    case Return(h, retry) => h in s.handles && s.handles[h].worker.Executing?
    case Reply(h) =>
      && h in s.handles && s.handles[h].worker.Replying? && s.handles[h].worker.todo != []
      && s.handles[h].worker.todo[0] in s.submits && !s.submits[s.handles[h].worker.todo[0]].buffered
    case Resume(h) => h in s.handles && s.handles[h].worker.Replying? && s.handles[h].worker.todo == []
    case Take(id) => id in s.submits && s.submits[id].phase.Waiting? && s.submits[id].buffered
    case Release(id) => id in s.submits && s.submits[id].phase.Releasing? && s.submits[id].phase.h in s.handles
    case Close => true
  }

  function Apply(s: State, step: Step): State
    requires Enabled(s, step)
  {
    match step
    case Begin(id, key) => s.(submits := s.submits[id := Submit(key, Loading, false, 0)])
    case Load(id, newId) =>
      var key := s.submits[id].key;
      if key in s.table then SetPhase(s, id, Loaded(s.table[key], true))
      else
        SetPhase(
          s.(handles := s.handles[newId := Handle(key, 0, NotStarted)], table := s.table[key := newId]),
          id, Loaded(newId, false))
    case Acquire(id) =>
      var phase := s.submits[id].phase;
      var rc := FusedRc.Wrap(s.handles[phase.h].rc + 1);
      var next :=
        if FusedRc.AcquireOutcome(rc) != FusedRc.Success then Loading
        else if phase.isOld then Sending(phase.h) else Spawning(phase.h);
      SetPhase(SetHandle(s, phase.h, rc, s.handles[phase.h].worker), id, next)
    case Spawn(id) =>
      var h := s.submits[id].phase.h;
      SetPhase(SetWorker(s, h, Poll), id, Sending(h))
    case Receive(id) =>
      var h := s.submits[id].phase.h;
      var worker := s.handles[h].worker;
      SetPhase(SetWorker(s, h, Batching((if worker.Batching? then worker.batch else []) + [id])), id, Waiting(h))
    case PollEmpty(h) => SetWorker(s, h, Select)
    case Idle(h) => SetWorker(s, h, TryFuse)
    case Fuse(h) =>
      if s.handles[h].rc == 0 then SetHandle(s, h, FusedRc.FUSED_INIT, Cleanup) else SetWorker(s, h, Poll)
    case Clean(h) => SetWorker(s, h, Exited).(table := s.table - {s.handles[h].key})
    case Abort(h) => SetWorker(s, h, Replying(s.handles[h].worker.batch, []))
    case Fire(h, canceled, keep) => SetWorker(s, h, Replying(canceled, keep))
    case Return(h, retry) =>
      var batch := s.handles[h].worker.batch;
      SetWorker(s, h, if retry then Batching(batch) else Replying(batch, []))
    case Reply(h) =>
      var worker := s.handles[h].worker;
      var to := worker.todo[0];
      var submit := s.submits[to];
      SetWorker(s, h, worker.(todo := worker.todo[1..])).(
        submits := s.submits[to := submit.(buffered := true, replies := submit.replies + 1)])
    case Resume(h) =>
      var keep := s.handles[h].worker.keep;
      SetWorker(s, h, if keep == [] then Poll else Executing(keep))
    case Take(id) =>
      var submit := s.submits[id];
      s.(submits := s.submits[id := submit.(buffered := false, phase := Releasing(submit.phase.h))])
    case Release(id) =>
      var h := s.submits[id].phase.h;
      SetPhase(SetHandle(s, h, FusedRc.Wrap(s.handles[h].rc - 1), s.handles[h].worker), id, Done)
    case Close => s.(closed := true)
  }

  // ----- the invariant -----

  ghost function Holders(s: State, h: HandleId): set<SubmitId> {
    set id | id in s.submits && s.submits[id].phase.Holds(h)
  }

  // The table holds exactly the handles that have not been cleaned up.
  ghost predicate TableInv(s: State) {
    && (forall k :: k in s.table ==>
      s.table[k] in s.handles && s.handles[s.table[k]].key == k && !s.handles[s.table[k]].worker.Exited?)
    && (forall h :: h in s.handles && !s.handles[h].worker.Exited? ==>
      s.handles[h].key in s.table && s.table[s.handles[h].key] == h)
  }

  // An unfused counter is its number of holders; a fused handle has none.
  ghost predicate CounterInv(s: State, h: HandleId)
    requires h in s.handles
  {
    if s.handles[h].worker.Fused() then
      FusedRc.FUSED_INIT <= s.handles[h].rc < 0 && Holders(s, h) == {}
    else
      0 <= s.handles[h].rc < FusedRc.TWO_31 && s.handles[h].rc == |Holders(s, h)|
  }

  // How many replies a call has had, and who owes it one.
  ghost predicate SubmitInv(s: State, id: SubmitId)
    requires id in s.submits
  {
    var submit := s.submits[id];
    && (submit.phase.Loading? || submit.phase.Done? ||
        (submit.phase.h in s.handles && s.handles[submit.phase.h].key == submit.key))
    && (if submit.phase.Releasing? || submit.phase.Done? then submit.replies == 1 && !submit.buffered
        else if submit.phase.Waiting? && submit.buffered then submit.replies == 1
        else submit.replies == 0 && !submit.buffered)
    && (submit.phase.Waiting? && !submit.buffered ==> id in s.handles[submit.phase.h].worker.Members())
  }

  // The requests of a goroutine are distinct, wait for it, and have no reply yet.
  ghost predicate MembersInv(s: State, h: HandleId)
    requires h in s.handles
  {
    forall id :: id in s.handles[h].worker.Members() ==>
      && s.handles[h].worker.Members()[id] == 1
      && id in s.submits && s.submits[id].phase == Waiting(h) && !s.submits[id].buffered
  }

  // The submitters about to start the goroutine of h.
  ghost function Creators(s: State, h: HandleId): set<SubmitId> {
    set id | id in s.submits && s.submits[id].phase.Creates(h)
  }

  // There is one of them until the goroutine has started, and none afterwards.
  ghost predicate CreatorInv(s: State, h: HandleId)
    requires h in s.handles
  {
    |Creators(s, h)| == if s.handles[h].worker.NotStarted? then 1 else 0
  }

  ghost predicate Inv(s: State) {
    && TableInv(s)
    && (forall h :: h in s.handles ==> CounterInv(s, h))
    && (forall h :: h in s.handles ==> CreatorInv(s, h))
    && (forall h :: h in s.handles ==> MembersInv(s, h))
    && (forall id :: id in s.submits ==> SubmitInv(s, id))
  }

  // ----- preservation -----

  ghost predicate Holding(s: State, id: SubmitId, h: HandleId) {
    id in s.submits && s.submits[id].phase.Holds(h)
  }

  ghost predicate Creating(s: State, id: SubmitId, h: HandleId) {
    id in s.submits && s.submits[id].phase.Creates(h)
  }

  ghost predicate OnlyChanges(s: State, s': State, id: SubmitId) {
    id in s'.submits && s'.submits == s.submits[id := s'.submits[id]]
  }

  lemma Counted(a: set<SubmitId>, b: set<SubmitId>, id: SubmitId)
    requires a - {id} == b - {id}
    ensures |b| == |a| - (if id in a then 1 else 0) + (if id in b then 1 else 0)
  {
    if id in a { assert a == a - {id} + {id}; } else { assert a == a - {id}; }
    if id in b { assert b == b - {id} + {id}; } else { assert b == b - {id}; }
  }

  // The holders and creators of a handle when one call of Submit moves.
  lemma OneMoves(s: State, s': State, id: SubmitId, h: HandleId)
    requires OnlyChanges(s, s', id)
    ensures |Holders(s', h)| == |Holders(s, h)|
      - (if Holding(s, id, h) then 1 else 0) + (if Holding(s', id, h) then 1 else 0)
    ensures |Creators(s', h)| == |Creators(s, h)|
      - (if Creating(s, id, h) then 1 else 0) + (if Creating(s', id, h) then 1 else 0)
  {
    assert Holders(s, h) - {id} == Holders(s', h) - {id};
    assert Creators(s, h) - {id} == Creators(s', h) - {id};
    Counted(Holders(s, h), Holders(s', h), id);
    Counted(Creators(s, h), Creators(s', h), id);
  }

  lemma LoadKeepsTable(s: State, id: SubmitId, newId: HandleId)
    requires TableInv(s) && Enabled(s, Load(id, newId))
    ensures TableInv(Apply(s, Load(id, newId)))
  {
    var key, s' := s.submits[id].key, Apply(s, Load(id, newId));
    if key !in s.table {
      assert s'.handles == s.handles[newId := Handle(key, 0, NotStarted)] && s'.table == s.table[key := newId];
    }
  }

  lemma CleanKeepsTable(s: State, h: HandleId)
    requires TableInv(s) && Enabled(s, Clean(h))
    ensures TableInv(Apply(s, Clean(h)))
    ensures s.handles[h].key in s.table && s.table[s.handles[h].key] == h
  {
    var s' := Apply(s, Clean(h));
    forall x | x in s'.handles && !s'.handles[x].worker.Exited?
      ensures s'.handles[x].key in s'.table && s'.table[s'.handles[x].key] == x
    {
      assert x != h && s'.handles[x] == s.handles[x];
      assert s.table[s.handles[x].key] == x && s.table[s.handles[h].key] == h;
    }
  }

  // Only a handle whose goroutine has not started has a call that will start it.
  lemma CreatorsHandle(s: State, id: SubmitId, h: HandleId)
    requires Inv(s) && Creating(s, id, h)
    ensures h in s.handles && s.handles[h].worker.NotStarted? && Creators(s, h) == {id}
  {
    assert id in Creators(s, h) && SubmitInv(s, id) && CreatorInv(s, h);
    assert Creators(s, h) - {id} == {} by {
      assert |Creators(s, h) - {id}| == |Creators(s, h)| - 1;
    }
  }

  // Spawn starts a goroutine that has not started.
  predicate SpawnsNew(s: State, step: Step)
    requires Enabled(s, step)
  {
    step.Spawn? ==> s.handles[s.submits[step.id].phase.h].worker.NotStarted?
  }

  lemma SameTable(s: State, s': State)
    requires TableInv(s) && s'.table == s.table && s'.handles.Keys == s.handles.Keys
    requires forall h :: h in s.handles ==>
      s'.handles[h].key == s.handles[h].key && s'.handles[h].worker.Exited? == s.handles[h].worker.Exited?
    ensures TableInv(s')
  {
  }

  // Only LoadOrCompute and Delete touch the table; only Delete ends a handle's time in it.
  lemma TableUntouched(s: State, step: Step)
    requires Enabled(s, step) && !step.Load? && !step.Clean?
    ensures Apply(s, step).table == s.table && Apply(s, step).handles.Keys == s.handles.Keys
  {
    hide FusedRc.Wrap, FusedRc.AcquireOutcome;
  }

  lemma KeysKept(s: State, step: Step, h: HandleId)
    requires Enabled(s, step) && SpawnsNew(s, step) && !step.Load? && !step.Clean?
    requires h in s.handles && h in Apply(s, step).handles
    ensures Apply(s, step).handles[h].key == s.handles[h].key
    ensures Apply(s, step).handles[h].worker.Exited? == s.handles[h].worker.Exited?
  {
    hide FusedRc.Wrap, FusedRc.AcquireOutcome;
  }

  lemma TableKept(s: State, step: Step)
    requires TableInv(s) && Enabled(s, step) && SpawnsNew(s, step)
    ensures TableInv(Apply(s, step))
  {
    match step
    case Load(id, newId) => LoadKeepsTable(s, id, newId);
    case Clean(h) => CleanKeepsTable(s, h);
    case _ =>
      hide Enabled, Apply, TableInv, SpawnsNew;
      TableUntouched(s, step);
      forall h | h in s.handles
        ensures Apply(s, step).handles[h].key == s.handles[h].key
        ensures Apply(s, step).handles[h].worker.Exited? == s.handles[h].worker.Exited?
      {
        KeysKept(s, step, h);
      }
      SameTable(s, Apply(s, step));
  }

  // ----- counters -----

  // Steps of a goroutine, and replies, leave every count of holders and creators alone.
  lemma SamePhases(s: State, s': State, h: HandleId)
    requires s'.submits.Keys == s.submits.Keys
    requires forall id :: id in s.submits ==> s'.submits[id].phase == s.submits[id].phase
    ensures Holders(s', h) == Holders(s, h) && Creators(s', h) == Creators(s, h)
  {
    forall id ensures id in Holders(s', h) <==> id in Holders(s, h) {}
    forall id ensures id in Creators(s', h) <==> id in Creators(s, h) {}
  }

  predicate BySubmitter(step: Step) {
    step.Begin? || step.Load? || step.Acquire? || step.Spawn? || step.Receive? || step.Take? || step.Release?
  }

  ghost predicate Counts(s: State, h: HandleId) {
    h in s.handles && CounterInv(s, h) && CreatorInv(s, h)
  }

  // A goroutine changes counters only by fusing, and starts no goroutine.
  lemma GoroutineCounter(s: State, step: Step, h: HandleId)
    requires Enabled(s, step) && !BySubmitter(step) && h in s.handles
    ensures h in Apply(s, step).handles
    ensures var before, after := s.handles[h], Apply(s, step).handles[h];
      && (after.worker.NotStarted? <==> before.worker.NotStarted?)
      && ((after.rc == before.rc && (after.worker.Fused() <==> before.worker.Fused()))
          || (before.rc == 0 && !before.worker.Fused() && after.rc == FusedRc.FUSED_INIT && after.worker.Fused()))
    ensures Apply(s, step).submits.Keys == s.submits.Keys
    ensures forall id :: id in s.submits ==> Apply(s, step).submits[id].phase == s.submits[id].phase
  {
    hide FusedRc.Wrap, FusedRc.AcquireOutcome;
  }

  lemma GoroutineKeepsCounts(s: State, step: Step, h: HandleId)
    requires Counts(s, h) && Enabled(s, step) && !BySubmitter(step)
    ensures Counts(Apply(s, step), h)
  {
    GoroutineCounter(s, step, h);
    SamePhases(s, Apply(s, step), h);
    hide Holders, Creators, Apply, Enabled;
  }

  lemma OthersKeepCounts(s: State, s': State, id: SubmitId, h: HandleId)
    requires Counts(s, h) && h in s'.handles && s'.handles[h] == s.handles[h] && OnlyChanges(s, s', id)
    requires Holding(s, id, h) == Holding(s', id, h) && Creating(s, id, h) == Creating(s', id, h)
    ensures Counts(s', h)
  {
    OneMoves(s, s', id, h);
    hide Holders, Creators;
  }

  lemma BeginKeepsCounts(s: State, id: SubmitId, key: Key, h: HandleId)
    requires Counts(s, h) && Enabled(s, Begin(id, key))
    ensures Counts(Apply(s, Begin(id, key)), h)
  {
    OthersKeepCounts(s, Apply(s, Begin(id, key)), id, h);
  }

  lemma LoadKeepsCounts(s: State, id: SubmitId, newId: HandleId, h: HandleId)
    requires Counts(s, h) && Enabled(s, Load(id, newId))
    ensures Counts(Apply(s, Load(id, newId)), h)
  {
    OthersKeepCounts(s, Apply(s, Load(id, newId)), id, h);
  }

  lemma LoadStartsCounts(s: State, id: SubmitId, newId: HandleId)
    requires Enabled(s, Load(id, newId)) && s.submits[id].key !in s.table
    requires Holders(s, newId) == {} && Creators(s, newId) == {}
    ensures Counts(Apply(s, Load(id, newId)), newId)
  {
    OneMoves(s, Apply(s, Load(id, newId)), id, newId);
  }

  lemma AcquireKeepsCounts(s: State, id: SubmitId, h: HandleId)
    requires Counts(s, h) && Enabled(s, Acquire(id))
    requires Creating(s, id, h) ==> s.handles[h].worker.NotStarted?
    ensures Counts(Apply(s, Acquire(id)), h)
  {
    var s' := Apply(s, Acquire(id));
    if s.submits[id].phase.h != h {
      OthersKeepCounts(s, s', id, h);
    } else {
      OneMoves(s, s', id, h);
      hide Holders, Creators;
      var rc := s.handles[h].rc;
      FusedRc.WrapInRange(rc + 1);
      if s.handles[h].worker.Fused() {
        assert FusedRc.Wrap(rc + 1) == rc + 1 < 0 && Holders(s, h) == {} && |Holders(s', h)| == 0;
      }
    }
  }

  lemma SpawnKeepsCounts(s: State, id: SubmitId, h: HandleId)
    requires Counts(s, h) && Enabled(s, Spawn(id)) && SpawnsNew(s, Spawn(id))
    ensures Counts(Apply(s, Spawn(id)), h)
  {
    var s' := Apply(s, Spawn(id));
    if s.submits[id].phase.h != h {
      OthersKeepCounts(s, s', id, h);
    } else {
      OneMoves(s, s', id, h);
      hide Holders, Creators;
    }
  }

  lemma ReceiveKeepsCounts(s: State, id: SubmitId, h: HandleId)
    requires Counts(s, h) && Enabled(s, Receive(id))
    ensures Counts(Apply(s, Receive(id)), h)
  {
    var s' := Apply(s, Receive(id));
    OneMoves(s, s', id, h);
    hide Holders, Creators;
    if s.handles[h].worker.Fused() {
      assert |Holders(s', h)| == 0;
    }
  }

  lemma TakeKeepsCounts(s: State, id: SubmitId, h: HandleId)
    requires Counts(s, h) && Enabled(s, Take(id))
    ensures Counts(Apply(s, Take(id)), h)
  {
    OthersKeepCounts(s, Apply(s, Take(id)), id, h);
  }

  lemma ReleaseKeepsCounts(s: State, id: SubmitId, h: HandleId)
    requires Counts(s, h) && Enabled(s, Release(id))
    ensures Counts(Apply(s, Release(id)), h)
    ensures s.submits[id].phase.h == h ==>
      FusedRc.ReleaseOutcome(Apply(s, Release(id)).handles[h].rc) == FusedRc.Success
  {
    var s' := Apply(s, Release(id));
    if s.submits[id].phase.h != h {
      OthersKeepCounts(s, s', id, h);
    } else {
      assert id in Holders(s, h);
      OneMoves(s, s', id, h);
      hide Holders, Creators;
      FusedRc.WrapInRange(s.handles[h].rc - 1);
    }
  }

  // ----- requests and replies -----

  // A request belongs to the goroutine its call is waiting for.
  ghost predicate Owned(s: State, h: HandleId) {
    h in s.handles && MembersInv(s, h)
  }

  ghost predicate Served(s: State, id: SubmitId) {
    id in s.submits && SubmitInv(s, id)
  }

  // Moving a call that is not waiting, and not adding requests, leaves them owned.
  lemma StillOwned(s: State, s': State, h: HandleId, id: SubmitId)
    requires Owned(s, h) && h in s'.handles
    requires s'.handles[h].worker.Members() == s.handles[h].worker.Members()
    requires OnlyChanges(s, s', id)
    requires id in s.submits ==> !s.submits[id].phase.Waiting? || s.submits[id].buffered
    ensures Owned(s', h)
  {
  }

  // A submitter other than one sending its request leaves the requests and keys of the handles alone.
  lemma SubmitterKeepsMembers(s: State, step: Step, h: HandleId)
    requires Enabled(s, step) && BySubmitter(step) && !step.Receive? && SpawnsNew(s, step) && h in s.handles
    ensures h in Apply(s, step).handles && Apply(s, step).handles[h].key == s.handles[h].key
    ensures Apply(s, step).handles[h].worker.Members() == s.handles[h].worker.Members()
  {
    hide FusedRc.Wrap, FusedRc.AcquireOutcome;
  }

  lemma SubmitterMovesOne(s: State, step: Step)
    requires Enabled(s, step) && BySubmitter(step)
    ensures OnlyChanges(s, Apply(s, step), step.id)
    ensures !step.Begin? ==> step.id in s.submits && (!s.submits[step.id].phase.Waiting? || s.submits[step.id].buffered)
    ensures step.Begin? ==> step.id !in s.submits
  {
    hide FusedRc.Wrap, FusedRc.AcquireOutcome;
  }

  lemma SubmitterKeepsOwned(s: State, step: Step, h: HandleId)
    requires Enabled(s, step) && BySubmitter(step) && !step.Receive? && Owned(s, h) && SpawnsNew(s, step)
    ensures Owned(Apply(s, step), h)
  {
    SubmitterKeepsMembers(s, step, h);
    SubmitterMovesOne(s, step);
    hide Enabled, Apply, Owned;
    StillOwned(s, Apply(s, step), h, step.id);
  }

  lemma ReceiveKeepsOwned(s: State, id: SubmitId, h: HandleId)
    requires Enabled(s, Receive(id)) && Owned(s, h) && Served(s, id)
    ensures Owned(Apply(s, Receive(id)), h)
  {
    var s' := Apply(s, Receive(id));
    if s.submits[id].phase.h != h {
      StillOwned(s, s', h, id);
    } else {
      assert id !in s.handles[h].worker.Members();
      OneMore(s.handles[h].worker, id);
      assert s'.submits[id].phase == Waiting(h) && !s'.submits[id].buffered && OnlyChanges(s, s', id);
      hide Apply, Enabled, Served, Worker.Members;
    }
  }

  lemma OneMore(worker: Worker, id: SubmitId)
    requires worker.Receives()
    ensures Batching((if worker.Batching? then worker.batch else []) + [id]).Members() ==
      worker.Members() + multiset{id}
  {
  }

  lemma OneLess(todo: seq<SubmitId>, keep: seq<SubmitId>)
    requires todo != []
    ensures Replying(todo[1..], keep).Members() == Replying(todo, keep).Members() - multiset{todo[0]}
    ensures todo[0] in Replying(todo, keep).Members()
  {
    assert todo == [todo[0]] + todo[1..];
  }

  lemma ReplyStep(s: State, from: HandleId)
    requires Enabled(s, Reply(from))
    ensures var handle, to := s.handles[from], s.handles[from].worker.todo[0];
      Apply(s, Reply(from)) == s.(
        handles := s.handles[from := handle.(worker := Replying(handle.worker.todo[1..], handle.worker.keep))],
        submits := s.submits[to := s.submits[to].(buffered := true, replies := s.submits[to].replies + 1)])
  {
  }

  // A reply takes one request from the goroutine that sends it.
  lemma ReplyTakesOne(s: State, from: HandleId, h: HandleId)
    requires Enabled(s, Reply(from)) && h in s.handles
    ensures h in Apply(s, Reply(from)).handles && Apply(s, Reply(from)).handles[h].key == s.handles[h].key
    ensures Apply(s, Reply(from)).handles[h].worker.Members() ==
      s.handles[h].worker.Members() - (if h == from then multiset{s.handles[from].worker.todo[0]} else multiset{})
    ensures s.handles[from].worker.todo[0] in s.handles[from].worker.Members()
    ensures OnlyChanges(s, Apply(s, Reply(from)), s.handles[from].worker.todo[0])
  {
    ReplyStep(s, from);
    OneLess(s.handles[from].worker.todo, s.handles[from].worker.keep);
    hide Apply;
  }

  lemma AnsweredOwned(s: State, s': State, from: HandleId, h: HandleId, to: SubmitId)
    requires Owned(s, h) && h in s'.handles && to in s.submits && s.submits[to].phase == Waiting(from)
    requires OnlyChanges(s, s', to)
    requires s'.handles[h].worker.Members() ==
      s.handles[h].worker.Members() - (if h == from then multiset{to} else multiset{})
    ensures Owned(s', h)
  {
    hide Worker.Members;
    if h != from {
      assert to !in s.handles[h].worker.Members();
    }
  }

  lemma ReplyKeepsOwned(s: State, from: HandleId, h: HandleId)
    requires Enabled(s, Reply(from)) && Owned(s, h) && Owned(s, from)
    ensures Owned(Apply(s, Reply(from)), h)
  {
    ReplyTakesOne(s, from, from);
    ReplyTakesOne(s, from, h);
    hide Apply;
    AnsweredOwned(s, Apply(s, Reply(from)), from, h, s.handles[from].worker.todo[0]);
  }

  lemma LessOwned(s: State, s': State, h: HandleId)
    requires Owned(s, h) && s'.submits == s.submits && h in s'.handles
    requires s'.handles[h].worker.Members() == s.handles[h].worker.Members()
    ensures Owned(s', h)
  {
  }

  lemma GoroutineMovesNobody(s: State, step: Step)
    requires Enabled(s, step) && !BySubmitter(step) && !step.Reply?
    ensures Apply(s, step).submits == s.submits && Apply(s, step).handles.Keys == s.handles.Keys
    ensures forall h :: h in s.handles ==> Apply(s, step).handles[h].key == s.handles[h].key
  {
    hide FusedRc.Wrap, FusedRc.AcquireOutcome;
  }

  lemma EmptyKeeps(todo: seq<SubmitId>, keep: seq<SubmitId>)
    ensures Replying(todo, []).Members() == Batching(todo).Members() == Executing(todo).Members() == multiset(todo)
    ensures Replying([], keep).Members() == Executing(keep).Members() == multiset(keep)
    ensures Replying([], []).Members() == multiset{}
  {
  }

  // Short of a reply, the goroutine of h keeps its requests.
  lemma SameMembers(s: State, step: Step, h: HandleId)
    requires Enabled(s, step) && !BySubmitter(step) && !step.Reply?
    requires h in s.handles && h in Apply(s, step).handles
    ensures Apply(s, step).handles[h].worker.Members() == s.handles[h].worker.Members()
  {
    match step
    case Abort(x) => EmptyKeeps(s.handles[x].worker.batch, []);
    case Fire(x, canceled, keep) =>
    case Return(x, retry) => EmptyKeeps(s.handles[x].worker.batch, []);
    case Resume(x) => EmptyKeeps([], s.handles[x].worker.keep);
    case PollEmpty(_) =>
    case Idle(_) =>
    case Fuse(_) =>
    case Clean(_) =>
    case Close =>
  }

  lemma GoroutineKeepsOwned(s: State, step: Step, h: HandleId)
    requires Enabled(s, step) && !BySubmitter(step) && !step.Reply? && Owned(s, h)
    ensures Owned(Apply(s, step), h)
  {
    GoroutineMovesNobody(s, step);
    hide Enabled, Apply;
    SameMembers(s, step, h);
    LessOwned(s, Apply(s, step), h);
  }

  // A call that does not move, whose handle keeps it as a request.
  lemma StillServed(s: State, s': State, id: SubmitId)
    requires Served(s, id) && id in s'.submits && s'.submits[id] == s.submits[id]
    requires forall h :: h in s.handles && s.submits[id].phase.On(h) ==>
      && h in s'.handles && s'.handles[h].key == s.handles[h].key
      && (id in s.handles[h].worker.Members() ==> id in s'.handles[h].worker.Members())
    ensures Served(s', id)
  {
  }

  lemma GoroutineKeepsServed(s: State, step: Step, id: SubmitId)
    requires Enabled(s, step) && !BySubmitter(step) && !step.Reply? && Served(s, id)
    ensures Served(Apply(s, step), id)
  {
    GoroutineMovesNobody(s, step);
    assert id in s.submits;
    hide Enabled, Apply, Served;
    forall h | h in s.handles && s.submits[id].phase.On(h)
      ensures Apply(s, step).handles[h].worker.Members() == s.handles[h].worker.Members()
    {
      SameMembers(s, step, h);
    }
    StillServed(s, Apply(s, step), id);
  }

  lemma ReplyAnswersOne(s: State, from: HandleId, h: HandleId)
    requires Enabled(s, Reply(from)) && Owned(s, from) && h in s.handles
    ensures var to := s.handles[from].worker.todo[0];
      && to in s.submits && s.submits[to].phase == Waiting(from) && !s.submits[to].buffered
      && Apply(s, Reply(from)).submits ==
         s.submits[to := s.submits[to].(buffered := true, replies := s.submits[to].replies + 1)]
      && h in Apply(s, Reply(from)).handles && Apply(s, Reply(from)).handles[h].key == s.handles[h].key
      && Apply(s, Reply(from)).handles[h].worker.Members() ==
         s.handles[h].worker.Members() - (if h == from then multiset{to} else multiset{})
  {
    ReplyTakesOne(s, from, from);
    ReplyTakesOne(s, from, h);
    ReplyStep(s, from);
    hide Apply, Worker.Members;
  }

  lemma OthersUnanswered(s: State, from: HandleId, id: SubmitId)
    requires Enabled(s, Reply(from)) && Owned(s, from) && Served(s, id) && id != s.handles[from].worker.todo[0]
    ensures Served(Apply(s, Reply(from)), id)
  {
    var s', to := Apply(s, Reply(from)), s.handles[from].worker.todo[0];
    ReplyAnswersOne(s, from, from);
    assert id in s.submits;
    hide Enabled, Apply, Owned, Served;
    forall h | h in s.handles && s.submits[id].phase.On(h)
      ensures h in s'.handles && s'.handles[h].key == s.handles[h].key
        && (id in s.handles[h].worker.Members() ==> id in s'.handles[h].worker.Members())
    {
      ReplyAnswersOne(s, from, h);
    }
    StillServed(s, s', id);
  }

  lemma ReplyKeepsServed(s: State, from: HandleId, id: SubmitId)
    requires Enabled(s, Reply(from)) && Owned(s, from) && Served(s, id)
    ensures Served(Apply(s, Reply(from)), id)
  {
    if id != s.handles[from].worker.todo[0] {
      OthersUnanswered(s, from, id);
    } else {
      ReplyAnswersOne(s, from, from);
      hide Apply, Owned;
    }
  }

  // A submitter's step leaves the other calls served.
  lemma OthersStillServed(s: State, step: Step, id: SubmitId)
    requires Enabled(s, step) && BySubmitter(step) && step.id != id && Served(s, id) && SpawnsNew(s, step)
    ensures Served(Apply(s, step), id)
  {
    SubmitterMovesOne(s, step);
    forall h | h in s.handles && s.submits[id].phase.On(h)
      ensures h in Apply(s, step).handles && Apply(s, step).handles[h].key == s.handles[h].key
      ensures id in s.handles[h].worker.Members() ==> id in Apply(s, step).handles[h].worker.Members()
    {
      if !step.Receive? { SubmitterKeepsMembers(s, step, h); }
    }
    hide Enabled, Apply, Served;
    StillServed(s, Apply(s, step), id);
  }

  lemma OwnStepServed(s: State, step: Step)
    requires Enabled(s, step) && BySubmitter(step) && TableInv(s) && SpawnsNew(s, step)
    requires !step.Begin? ==> Served(s, step.id)
    ensures Served(Apply(s, step), step.id)
  {
    hide FusedRc.Wrap, FusedRc.AcquireOutcome;
  }

  // ----- the invariant over a step -----

  lemma NewHandleUnused(s: State, h: HandleId)
    requires Inv(s) && h !in s.handles
    ensures Holders(s, h) == {} && Creators(s, h) == {}
  {
    forall id | id in s.submits ensures !s.submits[id].phase.On(h) { assert SubmitInv(s, id); }
  }

  lemma StepSpawnsNew(s: State, step: Step)
    requires Inv(s) && Enabled(s, step)
    ensures SpawnsNew(s, step)
  {
    if step.Spawn? { CreatorsHandle(s, step.id, s.submits[step.id].phase.h); }
  }

  lemma OnlyLoadAllocates(s: State, step: Step, h: HandleId)
    requires Enabled(s, step) && h !in s.handles && h in Apply(s, step).handles
    ensures step.Load? && step.newId == h && s.submits[step.id].key !in s.table
  {
    hide FusedRc.Wrap, FusedRc.AcquireOutcome;
  }

  lemma SubmitterKeepsCounts(s: State, step: Step, h: HandleId)
    requires Enabled(s, step) && SpawnsNew(s, step) && Counts(s, h) && BySubmitter(step)
    requires Creating(s, step.id, h) ==> h in s.handles && s.handles[h].worker.NotStarted?
    ensures Counts(Apply(s, step), h)
  {
    hide Counts, Apply;
    match step
    case Begin(id, key) => BeginKeepsCounts(s, id, key, h);
    case Load(id, newId) => LoadKeepsCounts(s, id, newId, h);
    case Acquire(id) => AcquireKeepsCounts(s, id, h);
    case Spawn(id) => SpawnKeepsCounts(s, id, h);
    case Receive(id) => ReceiveKeepsCounts(s, id, h);
    case Take(id) => TakeKeepsCounts(s, id, h);
    case Release(id) => ReleaseKeepsCounts(s, id, h);
  }

  lemma CountsKept(s: State, step: Step, h: HandleId)
    requires Inv(s) && Enabled(s, step) && h in Apply(s, step).handles
    ensures Counts(Apply(s, step), h)
  {
    StepSpawnsNew(s, step);
    if h !in s.handles {
      NewHandleUnused(s, h);
      OnlyLoadAllocates(s, step, h);
      hide Inv, Counts;
      LoadStartsCounts(s, step.id, step.newId);
    } else {
      assert Counts(s, h);
      if BySubmitter(step) {
        if Creating(s, step.id, h) { CreatorsHandle(s, step.id, h); }
        hide *;
        SubmitterKeepsCounts(s, step, h);
      } else {
        hide *;
        GoroutineKeepsCounts(s, step, h);
      }
    }
  }

  lemma OwnedKept(s: State, step: Step, h: HandleId)
    requires Inv(s) && Enabled(s, step) && h in Apply(s, step).handles
    ensures Owned(Apply(s, step), h)
  {
    StepSpawnsNew(s, step);
    assert h in s.handles ==> Owned(s, h);
    if h !in s.handles {
      OnlyLoadAllocates(s, step, h);
    } else if step.Reply? {
      assert Owned(s, step.h);
      ReplyKeepsOwned(s, step.h, h);
    } else if step.Receive? {
      assert Served(s, step.id);
      ReceiveKeepsOwned(s, step.id, h);
    } else if BySubmitter(step) {
      SubmitterKeepsOwned(s, step, h);
    } else {
      GoroutineKeepsOwned(s, step, h);
    }
  }

  lemma ServedKept(s: State, step: Step, id: SubmitId)
    requires Inv(s) && Enabled(s, step) && id in Apply(s, step).submits
    ensures Served(Apply(s, step), id)
  {
    StepSpawnsNew(s, step);
    assert id in s.submits ==> Served(s, id);
    if step.Reply? {
      assert Owned(s, step.h);
      ReplyKeepsServed(s, step.h, id);
    } else if !BySubmitter(step) {
      GoroutineMovesNobody(s, step);
      GoroutineKeepsServed(s, step, id);
    } else {
      SubmitterMovesOne(s, step);
      if step.id == id { OwnStepServed(s, step); } else { OthersStillServed(s, step, id); }
    }
  }

  lemma NextInv(s: State, step: Step)
    requires Inv(s) && Enabled(s, step)
    ensures Inv(Apply(s, step))
  {
    var s' := Apply(s, step);
    StepSpawnsNew(s, step);
    TableKept(s, step);
    forall h | h in s'.handles ensures CounterInv(s', h) && CreatorInv(s', h) && MembersInv(s', h) {
      CountsKept(s, step, h);
      OwnedKept(s, step, h);
    }
    forall id | id in s'.submits ensures SubmitInv(s', id) {
      ServedKept(s, step, id);
    }
  }

  // ----- runs -----

  predicate StepTo(s: State, step: Step, s': State) {
    Enabled(s, step) && Apply(s, step) == s'
  }

  predicate IsRun(states: seq<State>, steps: seq<Step>) {
    && |states| == |steps| + 1
    && states[0] == INIT
    && forall i :: 0 <= i < |steps| ==> StepTo(states[i], steps[i], states[i + 1])
  }

  lemma {:induction false} RunInv(states: seq<State>, steps: seq<Step>, i: nat)
    requires IsRun(states, steps) && i < |states|
    ensures Inv(states[i])
  {
    if i > 0 {
      RunInv(states, steps, i - 1);
      assert StepTo(states[i - 1], steps[i - 1], states[i]);
      NextInv(states[i - 1], steps[i - 1]);
    }
  }

  // At any time a key has at most one handle that has not been cleaned up, the one in the table, hence at most one
  // goroutine, and at most one call of Execute.
  lemma OneGoroutinePerKey(states: seq<State>, steps: seq<Step>, i: nat, h: HandleId, h': HandleId)
    requires IsRun(states, steps) && i < |states|
    requires h in states[i].handles && h' in states[i].handles && states[i].handles[h].key == states[i].handles[h'].key
    requires !states[i].handles[h].worker.Exited? && !states[i].handles[h'].worker.Exited?
    ensures h == h' && states[i].handles[h].key in states[i].table && states[i].table[states[i].handles[h].key] == h
  {
    RunInv(states, steps, i);
  }

  lemma StaysStarted(s: State, step: Step, h: HandleId)
    requires Enabled(s, step) && SpawnsNew(s, step) && h in s.handles && !s.handles[h].worker.NotStarted?
    ensures h in Apply(s, step).handles && !Apply(s, step).handles[h].worker.NotStarted?
    ensures step.Spawn? ==> s.submits[step.id].phase.h != h
  {
    hide FusedRc.Wrap, FusedRc.AcquireOutcome;
  }

  // The goroutine of a handle is started once: Spawn finds it not started, and no step makes it so again.
  lemma StartedOnce(states: seq<State>, steps: seq<Step>, i: nat, h: HandleId)
    requires IsRun(states, steps) && i < |steps| && h in states[i].handles && !states[i].handles[h].worker.NotStarted?
    ensures h in states[i + 1].handles && !states[i + 1].handles[h].worker.NotStarted?
    ensures steps[i].Spawn? ==> steps[i].id in states[i].submits && states[i].submits[steps[i].id].phase.On(h) == false
  {
    RunInv(states, steps, i);
    assert StepTo(states[i], steps[i], states[i + 1]);
    StepSpawnsNew(states[i], steps[i]);
    StaysStarted(states[i], steps[i], h);
    hide Inv, Apply;
  }

  // The deletion by key in the cleanup of a handle removes that very handle, never a newer one.
  lemma CleanupDeletesItsOwn(states: seq<State>, steps: seq<Step>, i: nat, h: HandleId)
    requires IsRun(states, steps) && i < |steps| && steps[i] == Clean(h)
    ensures h in states[i].handles && states[i].handles[h].key in states[i].table
    ensures states[i].table[states[i].handles[h].key] == h
  {
    RunInv(states, steps, i);
    assert StepTo(states[i], steps[i], states[i + 1]);
    CleanKeepsTable(states[i], h);
  }

  // Nobody is at a fused handle, from the moment it is fused: no request to it is unsent, unanswered or unread,
  // and nobody can acquire it.
  lemma FusedIsDeserted(states: seq<State>, steps: seq<Step>, i: nat, h: HandleId, id: SubmitId)
    requires IsRun(states, steps) && i < |states| && h in states[i].handles && states[i].handles[h].worker.Fused()
    requires id in states[i].submits
    ensures !states[i].submits[id].phase.Holds(h) && states[i].handles[h].worker.Members() == multiset{}
    ensures Enabled(states[i], Acquire(id)) && states[i].submits[id].phase.h == h ==>
      Apply(states[i], Acquire(id)).submits[id].phase == Loading
  {
    RunInv(states, steps, i);
    hide *;
    Deserted(states[i], h, id);
    Unacquirable(states[i], h, id);
  }

  lemma Deserted(s: State, h: HandleId, id: SubmitId)
    requires Inv(s) && h in s.handles && s.handles[h].worker.Fused() && id in s.submits
    ensures !s.submits[id].phase.Holds(h) && s.handles[h].worker.Members() == multiset{}
  {
    assert CounterInv(s, h) && id !in Holders(s, h);
    hide Inv;
  }

  lemma Unacquirable(s: State, h: HandleId, id: SubmitId)
    requires Inv(s) && h in s.handles && s.handles[h].worker.Fused() && id in s.submits
    ensures Enabled(s, Acquire(id)) && s.submits[id].phase.h == h ==>
      Apply(s, Acquire(id)).submits[id].phase == Loading
  {
    assert CounterInv(s, h);
    hide Inv, CounterInv, Apply;
    if Enabled(s, Acquire(id)) && s.submits[id].phase.h == h { FusedRefuses(s, h, id); }
  }

  lemma FusedRefuses(s: State, h: HandleId, id: SubmitId)
    requires Enabled(s, Acquire(id)) && s.submits[id].phase.h == h && s.handles[h].worker.Fused() && CounterInv(s, h)
    ensures Apply(s, Acquire(id)).submits[id].phase == Loading
  {
    FusedRc.WrapInRange(s.handles[h].rc + 1);
  }

  // The counter of a handle that is not fused is the number of calls between Acquire and Release, and Release never
  // panics.
  lemma CounterIsHolders(states: seq<State>, steps: seq<Step>, i: nat, id: SubmitId, h: HandleId)
    requires IsRun(states, steps) && i < |states| && h in states[i].handles
    ensures !states[i].handles[h].worker.Fused() ==> states[i].handles[h].rc == |Holders(states[i], h)|
    ensures Enabled(states[i], Release(id)) && states[i].submits[id].phase.h == h ==>
      FusedRc.ReleaseOutcome(Apply(states[i], Release(id)).handles[h].rc) == FusedRc.Success
  {
    RunInv(states, steps, i);
    assert Counts(states[i], h);
    hide Inv, Holders, Creators;
    if Enabled(states[i], Release(id)) { ReleaseKeepsCounts(states[i], id, h); }
  }

  // The call that created a handle does acquire it, so the goroutine of the handle does get started.
  lemma CreatorAcquires(states: seq<State>, steps: seq<Step>, i: nat, id: SubmitId, h: HandleId)
    requires IsRun(states, steps) && i < |states| && Enabled(states[i], Acquire(id))
    requires states[i].submits[id].phase == Loaded(h, false)
    ensures Apply(states[i], Acquire(id)).submits[id].phase == Spawning(h)
  {
    RunInv(states, steps, i);
    CreatorsHandle(states[i], id, h);
    assert CounterInv(states[i], h);
    hide Inv, IsRun;
    UnfusedAccepts(states[i], id, h);
  }

  lemma UnfusedAccepts(s: State, id: SubmitId, h: HandleId)
    requires Enabled(s, Acquire(id)) && s.submits[id].phase == Loaded(h, false)
    requires s.handles[h].worker.NotStarted? && CounterInv(s, h)
    ensures Apply(s, Acquire(id)).submits[id].phase == Spawning(h)
  {
    FusedRc.WrapInRange(s.handles[h].rc + 1);
  }

  // A call of Submit gets one reply: none before its request has been received, exactly one by the time it returns,
  // and while it has none the goroutine of its handle keeps its request.
  lemma OneReply(states: seq<State>, steps: seq<Step>, i: nat, id: SubmitId)
    requires IsRun(states, steps) && i < |states| && id in states[i].submits
    ensures states[i].submits[id].replies <= 1
    ensures states[i].submits[id].phase.Done? ==> states[i].submits[id].replies == 1
    ensures states[i].submits[id].phase.Waiting? ==> var h := states[i].submits[id].phase.h;
      && h in states[i].handles
      && states[i].handles[h].worker.Members()[id] == 1 - states[i].submits[id].replies
  {
    var s := states[i];
    RunInv(states, steps, i);
    assert SubmitInv(s, id);
    if s.submits[id].phase.Waiting? {
      assert MembersInv(s, s.submits[id].phase.h);
    }
  }

  lemma ReplyEnabled(s: State, h: HandleId)
    requires Owned(s, h) && s.handles[h].worker.Replying? && s.handles[h].worker.todo != []
    ensures Enabled(s, Reply(h))
  {
    assert s.handles[h].worker.todo[0] in s.handles[h].worker.Members();
  }

  // Sending a reply never blocks.
  lemma ReplyNeverBlocks(states: seq<State>, steps: seq<Step>, i: nat, h: HandleId)
    requires IsRun(states, steps) && i < |states| && h in states[i].handles
    requires states[i].handles[h].worker.Replying? && states[i].handles[h].worker.todo != []
    ensures Enabled(states[i], Reply(h))
  {
    RunInv(states, steps, i);
    assert Owned(states[i], h);
    ReplyEnabled(states[i], h);
  }
}
