/**
 What the calls of Submit get from the pool (util/retrybatch/pool.go): the interleaving of RetryBatch with the arguments
 of the calls and what Adapter.Execute returns for them.
 */
module RetryResults {
  import opened Common
  import opened RetryBatch
  import BatchExecution

  type Arg = BatchExecution.Arg
  type Answer = BatchExecution.Answer
  type Execution = BatchExecution.Execution

  // Why a goroutine is replying: for the same reason to all, or with the results of an execution from position `next`
  // on.
  datatype Reason = Ending(answer: Answer) | Delivering(execution: Execution, next: nat)

  datatype Record = Record(
    args: map<SubmitId, Arg>,
    reasons: map<HandleId, Reason>,
    answers: map<SubmitId, Answer>,
    executions: seq<(Key, Execution)>)     // every call of Execute that has returned, with its key

  const NOTHING := Record(map[], map[], map[], [])

  // A step, with the argument of the call that begins and what Execute returns.
  datatype Move = Move(step: Step, arg: Arg, result: BatchExecution.ExecuteResult)

  predicate Allowed(s: State, m: Move) {
    Enabled(s, m.step) && (m.step.Return? ==> (m.step.retry <==> m.result.NeedRetry?))
  }

  function ArgOf(r: Record, id: SubmitId): Arg {
    if id in r.args then r.args[id] else ""
  }

  function Called(r: Record, batch: seq<SubmitId>, result: BatchExecution.ExecuteResult): Execution {
    BatchExecution.Execution(batch, seq(|batch|, i requires 0 <= i < |batch| => ArgOf(r, batch[i])), result)
  }

  function AnswerFor(reason: Reason): Answer {
    match reason
    case Ending(answer) => answer
    case Delivering(e, next) =>
      if e.result.Success? then BatchExecution.Result(e.result.at(next)) else BatchExecution.ExecuteError
  }

  function Advanced(reason: Reason): Reason {
    if reason.Delivering? then reason.(next := reason.next + 1) else reason
  }

  function Note(s: State, r: Record, m: Move): Record
    requires Enabled(s, m.step)
  {
    match m.step
    case Begin(id, _) => r.(args := r.args[id := m.arg])
    case Abort(h) => r.(reasons := r.reasons[h := Ending(BatchExecution.PoolCanceled)])
    case Fire(h, _, _) => r.(reasons := r.reasons[h := Ending(BatchExecution.OperationCanceled)])
    case Return(h, retry) =>
      var e := Called(r, s.handles[h].worker.batch, m.result);
      var reason := if m.result.Success? then Delivering(e, 0) else Ending(BatchExecution.ExecuteError);
      r.(executions := r.executions + [(s.handles[h].key, e)], reasons := r.reasons[h := reason])
    case Reply(h) =>
      if h !in r.reasons then r
      else
        r.(answers := r.answers[s.handles[h].worker.todo[0] := AnswerFor(r.reasons[h])],
           reasons := r.reasons[h := Advanced(r.reasons[h])])
    case _ => r
  }

  // ----- the invariant -----

  // The result at a position of a successful execution for the argument, and the key, of this very call.
  ghost predicate ComputedBy(r: Record, key: Key, id: SubmitId, e: Execution, i: nat) {
    && (key, e) in r.executions && e.result.Success?
    && i < |e.ids| == |e.args| && e.ids[i] == id
    && id in r.args && e.args[i] == r.args[id]
    && id in r.answers && r.answers[id] == BatchExecution.Result(e.result.at(i))
  }

  ghost predicate Computed(r: Record, key: Key, id: SubmitId) {
    exists e, i :: ComputedBy(r, key, id, e, i)
  }

  ghost predicate ArgsNoted(r: Record, e: Execution) {
    |e.ids| == |e.args| && forall i :: 0 <= i < |e.ids| ==> e.ids[i] in r.args && e.args[i] == r.args[e.ids[i]]
  }

  // The requests still to be answered by a goroutine are the rest of the execution it delivers.
  ghost predicate HandleNoted(handle: Handle, r: Record, h: HandleId) {
    var worker := handle.worker;
    worker.Replying? && worker.todo != [] ==>
      && h in r.reasons
      && match r.reasons[h]
         case Ending(answer) => !answer.Result?
         case Delivering(e, next) =>
           && e.result.Success? && (handle.key, e) in r.executions && ArgsNoted(r, e)
           && next <= |e.ids| && worker.todo == e.ids[next..]
  }

  ghost predicate CallNoted(s: State, r: Record, id: SubmitId)
    requires id in s.submits
  {
    s.submits[id].replies > 0 ==>
      id in r.answers && (r.answers[id].Result? ==> Computed(r, s.submits[id].key, id))
  }

  ghost predicate Noted(s: State, r: Record) {
    && r.args.Keys == s.submits.Keys
    && (forall h :: h in s.handles ==> HandleNoted(s.handles[h], r, h))
    && (forall id :: id in s.submits ==> CallNoted(s, r, id))
  }

  // ----- preservation -----

  // More is known: nothing noted so far changes but what `id` is answered.
  ghost predicate Extends(r: Record, r': Record) {
    && (forall id :: id in r.args ==> id in r'.args && r'.args[id] == r.args[id])
    && (forall x :: x in r.executions ==> x in r'.executions)
  }

  lemma StillComputed(r: Record, r': Record, key: Key, id: SubmitId)
    requires Computed(r, key, id) && Extends(r, r') && id in r'.answers && r'.answers[id] == r.answers[id]
    ensures Computed(r', key, id)
  {
    var e, i :| ComputedBy(r, key, id, e, i);
    assert ComputedBy(r', key, id, e, i);
  }

  lemma StillNoted(handle: Handle, handle': Handle, r: Record, r': Record, h: HandleId)
    requires HandleNoted(handle, r, h) && Extends(r, r') && handle'.key == handle.key && handle'.worker == handle.worker
    requires h in r.reasons ==> h in r'.reasons && r'.reasons[h] == r.reasons[h]
    ensures HandleNoted(handle', r', h)
  {
  }

  // The handle whose goroutine takes the step.
  function Mover(s: State, step: Step): Option<HandleId>
    requires Enabled(s, step)
  {
    match step
    case Spawn(id) => Some(s.submits[id].phase.h)
    case Receive(id) => Some(s.submits[id].phase.h)
    case PollEmpty(h) => Some(h)
    case Idle(h) => Some(h)
    case Fuse(h) => Some(h)
    case Clean(h) => Some(h)
    case Abort(h) => Some(h)
    case Fire(h, _, _) => Some(h)
    case Return(h, _) => Some(h)
    case Reply(h) => Some(h)
    case Resume(h) => Some(h)
    case _ => None
  }

  lemma OthersStay(s: State, step: Step, h: HandleId)
    requires Enabled(s, step) && h in s.handles && Mover(s, step) != Some(h)
    ensures h in Apply(s, step).handles
    ensures Apply(s, step).handles[h].key == s.handles[h].key
    ensures Apply(s, step).handles[h].worker == s.handles[h].worker
  {
    hide FusedRc.Wrap, FusedRc.AcquireOutcome;
  }

  lemma OtherReasons(s: State, r: Record, m: Move, h: HandleId)
    requires Enabled(s, m.step) && h in s.handles && Mover(s, m.step) != Some(h)
    ensures h in r.reasons ==> h in Note(s, r, m).reasons && Note(s, r, m).reasons[h] == r.reasons[h]
  {
    hide Apply, Called, AnswerFor, Advanced;
  }

  lemma NoteExtends(s: State, r: Record, m: Move)
    requires Enabled(s, m.step) && r.args.Keys == s.submits.Keys
    ensures Extends(r, Note(s, r, m))
    ensures !m.step.Reply? ==> Note(s, r, m).answers == r.answers
  {
    hide Apply, Called, AnswerFor, Advanced;
  }

  lemma NoteArgs(s: State, r: Record, m: Move)
    requires Enabled(s, m.step) && r.args.Keys == s.submits.Keys
    ensures Note(s, r, m).args.Keys == Apply(s, m.step).submits.Keys
  {
    if BySubmitter(m.step) {
      SubmitterMovesOne(s, m.step);
      hide Apply, Called, AnswerFor, Advanced;
    } else if !m.step.Reply? {
      GoroutineMovesNobody(s, m.step);
      hide Apply, Called, AnswerFor, Advanced;
    } else {
      hide Called, AnswerFor, Advanced;
    }
  }

  lemma ReturnNoted(s: State, r: Record, m: Move, h: HandleId)
    requires Allowed(s, m) && m.step.Return? && m.step.h == h && MembersInv(s, h) && r.args.Keys == s.submits.Keys
    ensures HandleNoted(Apply(s, m.step).handles[h], Note(s, r, m), h)
  {
    var batch := s.handles[h].worker.batch;
    forall i | 0 <= i < |batch| ensures batch[i] in r.args { assert batch[i] in s.handles[h].worker.Members(); }
    var e := Called(r, batch, m.result);
    assert ArgsNoted(Note(s, r, m), e) && e.ids[0..] == batch;
  }

  lemma ReplyNoted(s: State, r: Record, m: Move, h: HandleId)
    requires Allowed(s, m) && m.step == Reply(h) && HandleNoted(s.handles[h], r, h)
    ensures HandleNoted(Apply(s, m.step).handles[h], Note(s, r, m), h)
  {
    var reason := r.reasons[h];
    if reason.Delivering? {
      assert reason.execution.ids[reason.next..][1..] == reason.execution.ids[reason.next + 1..];
    }
  }

  lemma OwnNoted(s: State, r: Record, m: Move, h: HandleId)
    requires Allowed(s, m) && Mover(s, m.step) == Some(h) && !m.step.Return? && !m.step.Reply?
    ensures h in Apply(s, m.step).handles && HandleNoted(Apply(s, m.step).handles[h], Note(s, r, m), h)
  {
    if m.step.Abort? || m.step.Fire? {
      assert Note(s, r, m).reasons == r.reasons[h := Note(s, r, m).reasons[h]];
    } else {
      NothingToReply(s, m.step, h);
      hide Apply, Enabled, Note;
    }
  }

  lemma NothingToReply(s: State, step: Step, h: HandleId)
    requires Enabled(s, step) && Mover(s, step) == Some(h)
    requires !step.Return? && !step.Reply? && !step.Abort? && !step.Fire?
    ensures h in Apply(s, step).handles && !Apply(s, step).handles[h].worker.Replying?
  {
    hide FusedRc.Wrap, FusedRc.AcquireOutcome;
  }

  lemma NewIsNoted(s: State, step: Step, r: Record, h: HandleId)
    requires Enabled(s, step) && h in Apply(s, step).handles && h !in s.handles
    ensures HandleNoted(Apply(s, step).handles[h], r, h)
  {
    if !BySubmitter(step) && !step.Reply? {
      GoroutineMovesNobody(s, step);
    }
    hide FusedRc.Wrap, FusedRc.AcquireOutcome;
  }

  lemma HandlesNoted(s: State, r: Record, m: Move, h: HandleId)
    requires Inv(s) && Noted(s, r) && Allowed(s, m) && h in Apply(s, m.step).handles
    ensures HandleNoted(Apply(s, m.step).handles[h], Note(s, r, m), h)
  {
    assert h in s.handles ==> MembersInv(s, h) && HandleNoted(s.handles[h], r, h);
    assert r.args.Keys == s.submits.Keys && Enabled(s, m.step);
    assert m.step.Return? || m.step.Reply? ==> Mover(s, m.step) == Some(m.step.h) && m.step.h in s.handles;
    hide *;
    if h !in s.handles {
      NewIsNoted(s, m.step, Note(s, r, m), h);
    } else if Mover(s, m.step) != Some(h) {
      OthersStay(s, m.step, h);
      OtherReasons(s, r, m, h);
      NoteExtends(s, r, m);
      StillNoted(s.handles[h], Apply(s, m.step).handles[h], r, Note(s, r, m), h);
    } else if m.step.Return? {
      ReturnNoted(s, r, m, h);
    } else if m.step.Reply? {
      assert m.step == Reply(h);
      ReplyNoted(s, r, m, h);
    } else {
      OwnNoted(s, r, m, h);
    }
  }

  // A call keeps its key; only a reply counts as one.
  lemma CallKept(s: State, step: Step, id: SubmitId)
    requires Enabled(s, step) && !step.Reply? && id in Apply(s, step).submits
    ensures id in s.submits ==>
      Apply(s, step).submits[id].key == s.submits[id].key && Apply(s, step).submits[id].replies == s.submits[id].replies
    ensures id !in s.submits ==> Apply(s, step).submits[id].replies == 0
  {
    if !BySubmitter(step) {
      GoroutineMovesNobody(s, step);
    }
    hide FusedRc.Wrap, FusedRc.AcquireOutcome;
  }

  // The reply itself.
  lemma ReplyAnswers(s: State, r: Record, m: Move, h: HandleId)
    requires Allowed(s, m) && m.step == Reply(h) && Noted(s, r) && MembersInv(s, h)
    requires forall id :: id in s.submits ==> SubmitInv(s, id)
    ensures forall id :: id in s.submits ==> CallNoted(Apply(s, m.step), Note(s, r, m), id)
  {
    var to, r' := s.handles[h].worker.todo[0], Note(s, r, m);
    assert to in s.handles[h].worker.Members() && SubmitInv(s, to) && HandleNoted(s.handles[h], r, h);
    NoteExtends(s, r, m);
    forall id | id in s.submits ensures CallNoted(Apply(s, m.step), r', id) {
      assert CallNoted(s, r, id);
      if id == to {
        if r.reasons[h].Delivering? {
          var e, n := r.reasons[h].execution, r.reasons[h].next;
          assert e.ids[n..][0] == to;
          assert ComputedBy(r', s.submits[id].key, id, e, n);
        }
      } else if s.submits[id].replies > 0 && r.answers[id].Result? {
        StillComputed(r, r', s.submits[id].key, id);
      }
    }
  }

  lemma CallsNoted(s: State, r: Record, m: Move, id: SubmitId)
    requires Noted(s, r) && Allowed(s, m) && !m.step.Reply? && id in Apply(s, m.step).submits
    ensures CallNoted(Apply(s, m.step), Note(s, r, m), id)
  {
    CallKept(s, m.step, id);
    NoteExtends(s, r, m);
    assert id in s.submits ==> CallNoted(s, r, id);
    hide Apply, Enabled, Note, Noted, Extends;
    if id in s.submits && s.submits[id].replies > 0 && r.answers[id].Result? {
      StillComputed(r, Note(s, r, m), s.submits[id].key, id);
    }
  }

  lemma NextNoted(s: State, r: Record, m: Move)
    requires Inv(s) && Noted(s, r) && Allowed(s, m)
    ensures Noted(Apply(s, m.step), Note(s, r, m))
  {
    var s', r' := Apply(s, m.step), Note(s, r, m);
    forall h | h in s'.handles ensures HandleNoted(s'.handles[h], r', h) {
      HandlesNoted(s, r, m, h);
    }
    NoteArgs(s, r, m);
    if m.step.Reply? {
      ReplyAnswers(s, r, m, m.step.h);
      hide CallNoted, HandleNoted;
    } else {
      forall id | id in s'.submits ensures CallNoted(s', r', id) {
        CallsNoted(s, r, m, id);
      }
    }
  }

  // ----- runs -----

  ghost predicate IsRecorded(states: seq<State>, records: seq<Record>, moves: seq<Move>) {
    && |states| == |records| == |moves| + 1 && states[0] == INIT && records[0] == NOTHING
    && forall i :: 0 <= i < |moves| ==> Moves(states, records, moves, i)
  }

  ghost predicate Moves(states: seq<State>, records: seq<Record>, moves: seq<Move>, i: nat)
    requires i < |moves| && |states| == |records| == |moves| + 1
  {
    && Allowed(states[i], moves[i]) && states[i + 1] == Apply(states[i], moves[i].step)
    && records[i + 1] == Note(states[i], records[i], moves[i])
  }

  lemma {:induction false} RunNoted(states: seq<State>, records: seq<Record>, moves: seq<Move>, i: nat)
    requires IsRecorded(states, records, moves) && i < |states|
    ensures Inv(states[i]) && Noted(states[i], records[i])
  {
    if i > 0 {
      RunNoted(states, records, moves, i - 1);
      assert Moves(states, records, moves, i - 1);
      NextInv(states[i - 1], moves[i - 1].step);
      hide Inv, Noted;
      NextNoted(states[i - 1], records[i - 1], moves[i - 1]);
    }
  }

  // Whatever the interleaving: a call that has returned has an answer, and when that is a result, it is what a call of
  // Execute for the key of this call returned at the position where it was given the argument of this call.
  lemma OwnResult(states: seq<State>, records: seq<Record>, moves: seq<Move>, i: nat, id: SubmitId)
    requires IsRecorded(states, records, moves) && i < |states| && id in states[i].submits
    requires states[i].submits[id].phase.Done?
    ensures id in records[i].answers
    ensures records[i].answers[id].Result? ==> Computed(records[i], states[i].submits[id].key, id)
  {
    RunNoted(states, records, moves, i);
    assert SubmitInv(states[i], id) && CallNoted(states[i], records[i], id);
  }
}
