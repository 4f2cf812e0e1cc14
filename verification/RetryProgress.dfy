/**
 No call of Submit can get stuck (util/retrybatch/pool.go): from every reachable state there is a schedule that
 completes it, of a length bounded by the requests of its handle. Adapter.Execute is taken to return.
 */
module RetryProgress {
  import opened RetryBatch
  import FusedRc

  // ----- a rank: an upper bound on the steps a call still needs -----

  ghost predicate CreatorLoaded(s: State, h: HandleId) {
    exists c :: c in s.submits && s.submits[c].phase == Loaded(h, false)
  }

  // Until the goroutine of h has received a request and answered it.
  ghost function SendRank(s: State, h: HandleId): nat
    requires h in s.handles
  {
    match s.handles[h].worker
    case NotStarted => if CreatorLoaded(s, h) then 13 else 12
    case Poll => 10
    case Select => 10
    case TryFuse => 11
    case Batching(b) => |b| + 10
    case Executing(b) => |b| + 12
    case Replying(todo, keep) => if keep == [] then |todo| + 11 else |todo| + |keep| + 13
    case Cleanup => 0
    case Exited => 0
  }

  // Until the goroutine has answered a request it has.
  function AnswerRank(worker: Worker, id: SubmitId): nat {
    match worker
    case Batching(b) => |b| + 8
    case Executing(b) => |b| + 4
    case Replying(todo, keep) => if id in todo then |todo| + 2 else |todo| + |keep| + 6
    case _ => 0
  }

  ghost function LoadRank(s: State, key: Key): nat {
    if key !in s.table || s.table[key] !in s.handles then 20
    else if s.handles[s.table[key]].worker.Cleanup? then 21
    else SendRank(s, s.table[key]) + 2
  }

  ghost function Rank(s: State, id: SubmitId): nat
    requires id in s.submits
  {
    match s.submits[id].phase
    case Done => 0
    case Releasing(_) => 1
    case Waiting(h) =>
      if s.submits[id].buffered || h !in s.handles then 2 else AnswerRank(s.handles[h].worker, id)
    case Sending(h) => if h in s.handles then SendRank(s, h) else 0
    case Spawning(h) => 12
    case Loaded(h, _) =>
      if h !in s.handles || s.handles[h].worker.Fused() then LoadRank(s, s.submits[id].key) + 1
      else SendRank(s, h) + 1
    case Loading => LoadRank(s, s.submits[id].key)
  }

  // No counter is within n additions of a count at which Acquire panics.
  ghost predicate Room(s: State, n: nat) {
    && n < FusedRc.TWO_30
    && forall h :: h in s.handles ==> s.handles[h].rc + n < if s.handles[h].worker.Fused() then 0 else FusedRc.TWO_31
  }

  ghost predicate Advances(s: State, id: SubmitId, step: Step)
    requires id in s.submits
  {
    && Enabled(s, step)
    && id in Apply(s, step).submits && Rank(Apply(s, step), id) < Rank(s, id)
  }

  lemma WaitRank(s: State, id: SubmitId, h: HandleId)
    requires id in s.submits && s.submits[id].phase == Waiting(h) && h in s.handles
    ensures Rank(s, id) == if s.submits[id].buffered then 2 else AnswerRank(s.handles[h].worker, id)
  {
  }

  // The goroutine of h moves on and the call waits as before.
  lemma WorkerAdvances(s: State, id: SubmitId, h: HandleId, step: Step)
    requires id in s.submits && s.submits[id].phase == Waiting(h) && !s.submits[id].buffered && h in s.handles
    requires Enabled(s, step) && Apply(s, step).submits == s.submits && h in Apply(s, step).handles
    requires AnswerRank(Apply(s, step).handles[h].worker, id) < AnswerRank(s.handles[h].worker, id)
    ensures Advances(s, id, step)
  {
    WaitRank(s, id, h);
    WaitRank(Apply(s, step), id, h);
  }

  lemma ReplyWorker(s: State, h: HandleId)
    requires Enabled(s, Reply(h)) && Owned(s, h)
    ensures h in Apply(s, Reply(h)).handles
    ensures Apply(s, Reply(h)).handles[h].worker == Replying(s.handles[h].worker.todo[1..], s.handles[h].worker.keep)
  {
  }

  lemma ReplyAdvances(s: State, id: SubmitId, h: HandleId)
    requires id in s.submits && s.submits[id].phase == Waiting(h) && !s.submits[id].buffered && h in s.handles
    requires Owned(s, h) && Enabled(s, Reply(h)) && id in s.handles[h].worker.Members()
    ensures Advances(s, id, Reply(h))
  {
    var worker, s' := s.handles[h].worker, Apply(s, Reply(h));
    ReplyAnswersOne(s, h, h);
    ReplyWorker(s, h);
    TodoRank(worker.todo, worker.keep, id);
    WaitRank(s, id, h);
    WaitRank(s', id, h);
    assert Enabled(s, Reply(h)) && worker.Replying?;
    hide Apply, Rank, Owned, AnswerRank;
  }

  lemma TodoRank(todo: seq<SubmitId>, keep: seq<SubmitId>, id: SubmitId)
    requires todo != []
    ensures todo[0] != id ==> AnswerRank(Replying(todo[1..], keep), id) < AnswerRank(Replying(todo, keep), id)
    ensures todo[0] == id ==> 2 < AnswerRank(Replying(todo, keep), id)
  {
    assert todo == [todo[0]] + todo[1..];
  }

  lemma FireAdvances(s: State, id: SubmitId, h: HandleId)
    requires id in s.submits && s.submits[id].phase == Waiting(h) && !s.submits[id].buffered && h in s.handles
    requires s.handles[h].worker.Batching?
    ensures Advances(s, id, Fire(h, [], s.handles[h].worker.batch))
  {
    var step := Fire(h, [], s.handles[h].worker.batch);
    assert Apply(s, step).handles[h].worker == Replying([], s.handles[h].worker.batch);
    WorkerAdvances(s, id, h, step);
  }

  lemma ReturnAdvances(s: State, id: SubmitId, h: HandleId)
    requires id in s.submits && s.submits[id].phase == Waiting(h) && !s.submits[id].buffered && h in s.handles
    requires s.handles[h].worker.Executing? && id in s.handles[h].worker.batch
    ensures Advances(s, id, Return(h, false))
  {
    assert Apply(s, Return(h, false)).handles[h].worker == Replying(s.handles[h].worker.batch, []);
    WorkerAdvances(s, id, h, Return(h, false));
  }

  lemma ResumeAdvances(s: State, id: SubmitId, h: HandleId)
    requires id in s.submits && s.submits[id].phase == Waiting(h) && !s.submits[id].buffered && h in s.handles
    requires s.handles[h].worker.Replying? && s.handles[h].worker.todo == [] && id in s.handles[h].worker.keep
    ensures Advances(s, id, Resume(h))
  {
    assert Apply(s, Resume(h)).handles[h].worker == Executing(s.handles[h].worker.keep);
    WorkerAdvances(s, id, h, Resume(h));
  }

  lemma AnswerAdvances(s: State, id: SubmitId, h: HandleId) returns (step: Step)
    requires id in s.submits && s.submits[id].phase == Waiting(h) && !s.submits[id].buffered
    requires Owned(s, h) && id in s.handles[h].worker.Members()
    ensures Advances(s, id, step)
  {
    hide Rank, Apply, Advances;
    match s.handles[h].worker
    case Batching(b) =>
      step := Fire(h, [], b);
      FireAdvances(s, id, h);
    case Executing(b) =>
      step := Return(h, false);
      ReturnAdvances(s, id, h);
    case Replying(todo, keep) =>
      if todo == [] {
        step := Resume(h);
        ResumeAdvances(s, id, h);
      } else {
        assert todo[0] in s.handles[h].worker.Members();
        step := Reply(h);
        ReplyAdvances(s, id, h);
      }
  }

  // ----- sending -----

  lemma SendingRank(s: State, id: SubmitId, h: HandleId)
    requires id in s.submits && s.submits[id].phase == Sending(h) && h in s.handles
    ensures Rank(s, id) == SendRank(s, h)
  {
  }

  // The goroutine of h moves on while the call keeps trying to send.
  lemma ServerAdvances(s: State, id: SubmitId, h: HandleId, step: Step)
    requires id in s.submits && s.submits[id].phase == Sending(h) && h in s.handles
    requires Enabled(s, step) && h in Apply(s, step).handles
    requires id in Apply(s, step).submits && Apply(s, step).submits[id].phase == Sending(h)
    requires SendRank(Apply(s, step), h) < SendRank(s, h)
    ensures Advances(s, id, step)
  {
    SendingRank(s, id, h);
    SendingRank(Apply(s, step), id, h);
  }

  lemma ReceiveAdvances(s: State, id: SubmitId, h: HandleId)
    requires id in s.submits && s.submits[id].phase == Sending(h) && h in s.handles && !s.submits[id].buffered
    requires s.handles[h].worker.Receives()
    ensures Advances(s, id, Receive(id))
  {
    var s' := Apply(s, Receive(id));
    SendingRank(s, id, h);
    WaitRank(s', id, h);
  }

  // A call holds h.
  ghost predicate Held(s: State, h: HandleId) {
    h in s.handles && !s.handles[h].worker.Fused() && s.handles[h].rc > 0
  }

  lemma HolderHolds(s: State, id: SubmitId, h: HandleId)
    requires Inv(s) && Holding(s, id, h)
    ensures Held(s, h)
  {
    assert SubmitInv(s, id) && CounterInv(s, h) && id in Holders(s, h);
  }

  lemma FuseFails(s: State, id: SubmitId, h: HandleId)
    requires id in s.submits && s.submits[id].phase == Sending(h) && Held(s, h) && s.handles[h].worker.TryFuse?
    ensures Advances(s, id, Fuse(h))
  {
    assert Apply(s, Fuse(h)).handles[h].worker == Poll;
    ServerAdvances(s, id, h, Fuse(h));
  }

  lemma ReplyServes(s: State, id: SubmitId, h: HandleId)
    requires id in s.submits && s.submits[id].phase == Sending(h) && Owned(s, h) && Enabled(s, Reply(h))
    ensures Advances(s, id, Reply(h))
  {
    assert s.handles[h].worker.Replying?;
    hide Enabled, Apply, Rank, Owned;
    ReplyAnswersOne(s, h, h);
    ReplyWorker(s, h);
    ServerAdvances(s, id, h, Reply(h));
  }

  // ----- starting the goroutine -----

  ghost predicate Sole(s: State, c: SubmitId, h: HandleId) {
    Creators(s, h) == {c}
  }

  lemma CreatorAdvances(s: State, id: SubmitId, h: HandleId, c: SubmitId) returns (step: Step)
    requires id in s.submits && s.submits[id].phase == Sending(h) && h in s.handles && s.handles[h].worker.NotStarted?
    requires Sole(s, c, h) && 0 <= s.handles[h].rc < FusedRc.TWO_31 - 1
    ensures Advances(s, id, step)
  {
    assert c in Creators(s, h);
    if s.submits[c].phase.Loaded? {
      step := Acquire(c);
      FusedRc.WrapInRange(s.handles[h].rc + 1);
      var s' := Apply(s, step);
      assert s'.submits[c].phase == Spawning(h) && s'.handles[h].worker.NotStarted?;
      forall x | x in s'.submits ensures s'.submits[x].phase != Loaded(h, false) {
        assert x in Creators(s, h) ==> x == c;
      }
      assert CreatorLoaded(s, h);
      ServerAdvances(s, id, h, step);
    } else {
      step := Spawn(c);
      assert Apply(s, step).handles[h].worker == Poll;
      ServerAdvances(s, id, h, step);
    }
  }

  // The steps of the goroutine of h from a state in which it neither receives nor replies.
  lemma WorkerServes(s: State, id: SubmitId, h: HandleId) returns (step: Step)
    requires id in s.submits && s.submits[id].phase == Sending(h) && h in s.handles
    requires s.handles[h].worker.Executing? || (s.handles[h].worker.Replying? && s.handles[h].worker.todo == [])
    ensures Advances(s, id, step)
  {
    var worker := s.handles[h].worker;
    if worker.Executing? {
      step := Return(h, false);
      assert Apply(s, step).handles[h].worker == Replying(worker.batch, []);
      ServerAdvances(s, id, h, step);
    } else {
      step := Resume(h);
      assert Apply(s, step).handles[h].worker == if worker.keep == [] then Poll else Executing(worker.keep);
      ServerAdvances(s, id, h, step);
    }
  }

  lemma SendAdvances(s: State, id: SubmitId, h: HandleId) returns (step: Step)
    requires Inv(s) && Room(s, 1) && id in s.submits && s.submits[id].phase == Sending(h)
    ensures Advances(s, id, step)
  {
    HolderHolds(s, id, h);
    assert SubmitInv(s, id) && Owned(s, h) && Counts(s, h);
    assert 0 <= s.handles[h].rc < FusedRc.TWO_31 - 1;
    var worker := s.handles[h].worker;
    if worker.NotStarted? {
      var c := OnlyCreator(s, h);
      hide *;
      step := CreatorAdvances(s, id, h, c);
    } else if worker.TryFuse? {
      step := Fuse(h);
      hide *;
      FuseFails(s, id, h);
    } else if worker.Replying? && worker.todo != [] {
      step := Reply(h);
      hide *;
      ReplyEnabled(s, h);
      ReplyServes(s, id, h);
    } else if worker.Receives() {
      step := Receive(id);
      hide Inv, Rank, Advances, Apply, Enabled;
      ReceiveAdvances(s, id, h);
    } else {
      hide Inv, Rank, Advances, Apply, Enabled;
      step := WorkerServes(s, id, h);
    }
  }

  lemma OnlyCreator(s: State, h: HandleId) returns (c: SubmitId)
    requires Counts(s, h) && s.handles[h].worker.NotStarted?
    ensures Sole(s, c, h)
  {
    c :| c in Creators(s, h);
    assert |Creators(s, h) - {c}| == 0;
  }

  // ----- acquiring -----

  lemma SendRankDrops(s: State, s': State, h: HandleId)
    requires h in s.handles && h in s'.handles && s'.handles[h].worker == s.handles[h].worker
    requires CreatorLoaded(s', h) ==> CreatorLoaded(s, h)
    ensures SendRank(s', h) <= SendRank(s, h)
  {
  }

  // One call leaves Loaded, so no more calls are there than before.
  lemma NoMoreLoaded(s: State, s': State, id: SubmitId, h: HandleId)
    requires OnlyChanges(s, s', id) && s'.submits[id].phase != Loaded(h, false)
    ensures CreatorLoaded(s', h) ==> CreatorLoaded(s, h)
  {
  }

  lemma AcquireAdvances(s: State, id: SubmitId, h: HandleId, isOld: bool)
    requires id in s.submits && s.submits[id].phase == Loaded(h, isOld) && h in s.handles
    requires !s.handles[h].worker.Fused() && (!isOld ==> s.handles[h].worker.NotStarted?)
    requires 0 <= s.handles[h].rc < FusedRc.TWO_31 - 1
    ensures Advances(s, id, Acquire(id))
  {
    var s' := Apply(s, Acquire(id));
    FusedRc.WrapInRange(s.handles[h].rc + 1);
    assert s'.submits[id].phase == if isOld then Sending(h) else Spawning(h);
    NoMoreLoaded(s, s', id, h);
    SendRankDrops(s, s', h);
    assert Rank(s, id) == SendRank(s, h) + 1;
    if !isOld {
      assert CreatorLoaded(s, h);
    }
  }

  lemma LoadRankDrops(s: State, s': State, id: SubmitId, key: Key)
    requires OnlyChanges(s, s', id) && !s'.submits[id].phase.Loaded?
    requires s'.table == s.table && s'.handles.Keys == s.handles.Keys
    requires forall h :: h in s.handles ==> s'.handles[h].worker == s.handles[h].worker
    ensures LoadRank(s', key) <= LoadRank(s, key)
  {
    if key in s.table && s.table[key] in s.handles {
      NoMoreLoaded(s, s', id, s.table[key]);
      SendRankDrops(s, s', s.table[key]);
    }
  }

  lemma RefusedAdvances(s: State, id: SubmitId, h: HandleId, isOld: bool)
    requires id in s.submits && s.submits[id].phase == Loaded(h, isOld) && h in s.handles
    requires s.handles[h].worker.Fused() && FusedRc.FUSED_INIT <= s.handles[h].rc < -1
    ensures Advances(s, id, Acquire(id))
  {
    var s' := Apply(s, Acquire(id));
    FusedRc.WrapInRange(s.handles[h].rc + 1);
    assert s'.submits[id].phase == Loading;
    LoadRankDrops(s, s', id, s.submits[id].key);
  }

  lemma CleanAdvances(s: State, id: SubmitId, h: HandleId)
    requires TableInv(s) && h in s.handles && s.handles[h].worker.Cleanup?
    requires id in s.submits && s.submits[id].key == s.handles[h].key
    requires s.submits[id].phase.Loading? || (s.submits[id].phase.Loaded? && s.submits[id].phase.h == h)
    ensures Advances(s, id, Clean(h))
  {
    var s', key := Apply(s, Clean(h)), s.submits[id].key;
    assert key in s.table && s.table[key] == h && LoadRank(s, key) == 21;
    assert key !in s'.table && LoadRank(s', key) == 20;
  }

  lemma LoadedAdvances(s: State, id: SubmitId, h: HandleId, isOld: bool) returns (step: Step)
    requires Inv(s) && Room(s, 1) && id in s.submits && s.submits[id].phase == Loaded(h, isOld)
    ensures Advances(s, id, step)
  {
    assert SubmitInv(s, id) && CounterInv(s, h);
    if s.handles[h].worker.Cleanup? {
      step := Clean(h);
      hide Inv, Room, Advances;
      CleanAdvances(s, id, h);
    } else {
      step := Acquire(id);
      if !isOld { CreatorsHandle(s, id, h); }
      assert s.handles[h].rc + 1 < if s.handles[h].worker.Fused() then 0 else FusedRc.TWO_31;
      hide Inv, Room, Advances;
      if s.handles[h].worker.Fused() {
        RefusedAdvances(s, id, h, isOld);
      } else {
        AcquireAdvances(s, id, h, isOld);
      }
    }
  }

  // ----- loading -----

  lemma NewId(ids: set<HandleId>) returns (newId: HandleId)
    ensures forall x :: x in ids ==> x < newId
  {
    newId := 0;
    var rest := ids;
    while rest != {}
      invariant forall x :: x in ids ==> x in rest || x < newId
    {
      var x :| x in rest;
      rest := rest - {x};
      if x >= newId { newId := x + 1; }
    }
  }

  lemma LoadNewAdvances(s: State, id: SubmitId, newId: HandleId)
    requires id in s.submits && s.submits[id].phase == Loading && s.submits[id].key !in s.table && newId !in s.handles
    ensures Advances(s, id, Load(id, newId))
  {
    var s' := Apply(s, Load(id, newId));
    assert s'.submits[id].phase == Loaded(newId, false) && s'.handles[newId].worker == NotStarted;
    assert CreatorLoaded(s', newId);
  }

  lemma LoadOldAdvances(s: State, id: SubmitId, newId: HandleId, h: HandleId)
    requires id in s.submits && s.submits[id].phase == Loading && newId !in s.handles
    requires s.submits[id].key in s.table && s.table[s.submits[id].key] == h
    requires h in s.handles && !s.handles[h].worker.Fused()
    ensures Advances(s, id, Load(id, newId))
  {
    var s' := Apply(s, Load(id, newId));
    assert s'.submits[id].phase == Loaded(h, true) && s'.handles == s.handles;
    NoMoreLoaded(s, s', id, h);
    SendRankDrops(s, s', h);
  }

  lemma LoadingAdvances(s: State, id: SubmitId) returns (step: Step)
    requires TableInv(s) && id in s.submits && s.submits[id].phase == Loading
    ensures Advances(s, id, step)
  {
    var key := s.submits[id].key;
    var newId := NewId(s.handles.Keys);
    assert newId !in s.handles;
    step := Load(id, newId);
    if key !in s.table {
      LoadNewAdvances(s, id, newId);
    } else if s.handles[s.table[key]].worker.Cleanup? {
      step := Clean(s.table[key]);
      CleanAdvances(s, id, s.table[key]);
    } else {
      LoadOldAdvances(s, id, newId, s.table[key]);
    }
  }

  // ----- all phases -----

  lemma SpawnAdvances(s: State, id: SubmitId, h: HandleId)
    requires id in s.submits && s.submits[id].phase == Spawning(h) && h in s.handles
    ensures Advances(s, id, Spawn(id))
  {
    assert Apply(s, Spawn(id)).handles[h].worker == Poll;
    SendingRank(Apply(s, Spawn(id)), id, h);
  }

  lemma TakeAdvances(s: State, id: SubmitId)
    requires id in s.submits && s.submits[id].phase.Waiting? && s.submits[id].buffered
    ensures Advances(s, id, Take(id))
  {
  }

  lemma ReleaseAdvances(s: State, id: SubmitId)
    requires id in s.submits && s.submits[id].phase.Releasing? && s.submits[id].phase.h in s.handles
    ensures Advances(s, id, Release(id))
  {
    hide FusedRc.Wrap;
  }

  // From every state a run can reach, some enabled step brings an outstanding call closer to its return.
  lemma CallAdvances(s: State, id: SubmitId) returns (step: Step)
    requires Inv(s) && Room(s, 1) && id in s.submits && !s.submits[id].phase.Done?
    ensures Advances(s, id, step)
  {
    hide Rank, Advances, Apply, Room;
    match s.submits[id].phase
    case Loading => step := LoadingAdvances(s, id);
    case Loaded(h, isOld) => step := LoadedAdvances(s, id, h, isOld);
    case Sending(h) => step := SendAdvances(s, id, h);
    case Waiting(h) =>
      if s.submits[id].buffered {
        step := Take(id);
        TakeAdvances(s, id);
      } else {
        assert SubmitInv(s, id) && Owned(s, h);
        step := AnswerAdvances(s, id, h);
      }
    case Spawning(h) =>
      assert SubmitInv(s, id);
      step := Spawn(id);
      SpawnAdvances(s, id, h);
    case Releasing(_) =>
      assert SubmitInv(s, id);
      step := Release(id);
      ReleaseAdvances(s, id);
  }

  // ----- completing a call -----

  ghost predicate Schedule(s: State, steps: seq<Step>, s': State)
    decreases |steps|
  {
    if steps == [] then s == s' else Enabled(s, steps[0]) && Schedule(Apply(s, steps[0]), steps[1..], s')
  }

  ghost predicate RoomAt(s: State, h: HandleId, n: nat) {
    h in s.handles ==> s.handles[h].rc + n < if s.handles[h].worker.Fused() then 0 else FusedRc.TWO_31
  }

  lemma RoomShrinksAt(s: State, step: Step, n: nat, h: HandleId)
    requires Enabled(s, step) && SpawnsNew(s, step) && n < FusedRc.TWO_30 && RoomAt(s, h, n + 1)
    requires h in s.handles ==> FusedRc.FUSED_INIT <= s.handles[h].rc
    ensures RoomAt(Apply(s, step), h, n)
  {
    if h in s.handles {
      FusedRc.WrapInRange(s.handles[h].rc + 1);
      FusedRc.WrapInRange(s.handles[h].rc - 1);
    }
    hide FusedRc.Wrap;
  }

  lemma RoomShrinks(s: State, step: Step, n: nat)
    requires Inv(s) && Enabled(s, step) && Room(s, n + 1)
    ensures Room(Apply(s, step), n)
  {
    StepSpawnsNew(s, step);
    forall h | h in Apply(s, step).handles ensures RoomAt(Apply(s, step), h, n) {
      assert h in s.handles ==> CounterInv(s, h);
      RoomShrinksAt(s, step, n, h);
    }
  }

  // A call can always be completed, in at most Rank steps, whatever state the pool is in.
  lemma CallCompletes(s: State, id: SubmitId) returns (steps: seq<Step>, s': State)
    requires Inv(s) && id in s.submits && Room(s, Rank(s, id) + 1)
    ensures Schedule(s, steps, s') && |steps| <= Rank(s, id)
    ensures id in s'.submits && s'.submits[id].phase.Done? && s'.submits[id].replies == 1
    decreases Rank(s, id)
  {
    if s.submits[id].phase.Done? {
      assert SubmitInv(s, id);
      return [], s;
    }
    assert Room(s, 1);
    var step := CallAdvances(s, id);
    hide Inv, Rank, Room;
    NextInv(s, step);
    RoomShrinks(s, step, Rank(s, id));
    RoomFor(Apply(s, step), Rank(s, id), Rank(Apply(s, step), id) + 1);
    var rest, last := CallCompletes(Apply(s, step), id);
    steps, s' := [step] + rest, last;
    assert steps[1..] == rest;
  }

  lemma RoomFor(s: State, n: nat, m: nat)
    requires Room(s, n) && m <= n
    ensures Room(s, m)
  {
  }
}
