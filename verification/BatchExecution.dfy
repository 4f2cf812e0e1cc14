/**
 What a batch goroutine does with its requests (util/retrybatch/pool.go, processBatch to tryExecuteBatch, over the
 swap-removing drain of util/util/slices.go): every request is answered once, with the result computed for it.
 */
module BatchExecution {
  import opened Common

  type Id = nat
  type Arg = string
  type Value = string

  datatype Request = Request(id: Id, arg: Arg, retries: nat)

  datatype Answer = Result(value: Value) | ExecuteError | OperationCanceled | PoolCanceled

  datatype Reply = Reply(id: Id, retries: nat, answer: Answer)

  // What Adapter.Execute returns; Success gives the result of the i-th argument.
  datatype ExecuteResult = Success(at: nat -> Value) | NeedRetry(delay: nat) | Err

  // A call of Adapter.Execute: the requests it was for, its arguments, and what it returned.
  datatype Execution = Execution(ids: seq<Id>, args: seq<Arg>, result: ExecuteResult)

  function Ids(batch: seq<Request>): seq<Id> {
    seq(|batch|, i requires 0 <= i < |batch| => batch[i].id)
  }

  function Args(batch: seq<Request>): seq<Arg> {
    seq(|batch|, i requires 0 <= i < |batch| => batch[i].arg)
  }

  function Retried(batch: seq<Request>): seq<Request> {
    seq(|batch|, i requires 0 <= i < |batch| => batch[i].(retries := batch[i].retries + 1))
  }

  // ----- the swap-removing drain -----

  function SwapRemoved<T>(s: seq<T>, i: nat): (r: seq<T>)
    requires i < |s|
    ensures |r| == |s| - 1
  {
    s[i := s[|s| - 1]][..|s| - 1]
  }

  // The elements of a batch that pass or fail a test, in any order.
  ghost predicate Splits(batch: seq<Request>, canceled: Id -> bool, kept: seq<Request>, dropped: seq<Request>) {
    && multiset(kept) + multiset(dropped) == multiset(batch)
    && (forall r :: r in kept ==> !canceled(r.id))
    && (forall r :: r in dropped ==> canceled(r.id))
  }

  // ----- the goroutine -----

  class Batcher {
    var batch: seq<Request>
    var replies: seq<Reply>
    var executions: seq<Execution>

    constructor (initial: Request)
      ensures batch == [initial] && replies == [] && executions == []
    {
      batch, replies, executions := [initial], [], [];
    }

    // A request arriving while the batch waits for its next execution.
    method Append(request: Request)
      modifies this`batch
      ensures batch == old(batch) + [request]
    {
      batch := batch + [request];
    }

    // The same answer to every request: when the pool shuts down, or the execution fails.
    method AnswerAll(answer: Answer)
      modifies this`replies
      ensures replies == old(replies) + AllAnswered(batch, answer)
    {
      var i := 0;
      while i < |batch|
        invariant 0 <= i <= |batch|
        invariant replies == old(replies) + AllAnswered(batch, answer)[..i]
      {
        replies := replies + [Reply(batch[i].id, batch[i].retries, answer)];
        i := i + 1;
      }
    }

    // Drops and answers the canceled requests. Each request is tested once, wherever swapping moves it.
    method DrainCanceled(canceled: Id -> bool) returns (ghost tested: seq<Request>, ghost dropped: seq<Request>)
      modifies this`batch, this`replies
      ensures Splits(old(batch), canceled, batch, dropped)
      ensures multiset(tested) == multiset(old(batch))
      ensures replies == old(replies) + AllAnswered(dropped, OperationCanceled)
    {
      tested, dropped := [], [];
      var i := 0;
      assert AllAnswered([], OperationCanceled) == [];
      assert Draining(batch, canceled, batch, 0, [], []);
      hide *;
      while i < |batch|
        invariant 0 <= i <= |batch|
        invariant Draining(old(batch), canceled, batch, i, tested, dropped)
        invariant replies == old(replies) + AllAnswered(dropped, OperationCanceled)
        decreases |batch| - i
      {
        var request := batch[i];
        if !canceled(request.id) {
          DrainKeeps(old(batch), canceled, batch, i, tested, dropped);
          i := i + 1;
        } else {
          DrainDrops(old(batch), canceled, batch, i, tested, dropped);
          AnsweredOneMore(dropped, request, OperationCanceled);
          replies := replies + [Reply(request.id, request.retries, OperationCanceled)];
          batch := SwapRemoved(batch, i);
          dropped := dropped + [request];
        }
        tested := tested + [request];
      }
      DrainDone(old(batch), canceled, batch, tested, dropped);
    }

    // Answers the i-th request with the i-th result.
    method Deliver(at: nat -> Value)
      modifies this`replies
      ensures replies == old(replies) + Delivered(batch, at)
    {
      var i := 0;
      while i < |batch|
        invariant 0 <= i <= |batch|
        invariant replies == old(replies) + Delivered(batch, at)[..i]
      {
        replies := replies + [Reply(batch[i].id, batch[i].retries, Result(at(i)))];
        i := i + 1;
      }
    }

    // Executes the batch once. Nothing is executed for an empty batch; a call that is not to be retried answers
    // every request, a failed one also clears the batch.
    method TryExecuteBatch(execute: (seq<Id>, seq<Arg>) -> ExecuteResult) returns (nextExecute: Option<nat>)
      modifies this
      ensures old(batch) == [] ==>
        nextExecute == None && batch == [] && replies == old(replies) && executions == old(executions)
      ensures old(batch) != [] ==>
        var result := execute(Ids(old(batch)), Args(old(batch)));
        && executions == old(executions) + [Execution(Ids(old(batch)), Args(old(batch)), result)]
        && batch == (if result.Err? then [] else Retried(old(batch)))
        && replies == old(replies) + (match result
             case Success(at) => Delivered(Retried(old(batch)), at)
             case NeedRetry(_) => []
             case Err => AllAnswered(Retried(old(batch)), ExecuteError))
        && nextExecute == if result.NeedRetry? then Some(result.delay) else None
    {
      if |batch| == 0 {
        return None;
      }
      var ids, args := Ids(batch), Args(batch);
      batch := Retried(batch);
      var result := execute(ids, args);
      executions := executions + [Execution(ids, args, result)];
      match result
      case Success(at) =>
        Deliver(at);
        return None;
      case NeedRetry(delay) =>
        return Some(delay);
      case Err =>
        AnswerAll(ExecuteError);
        batch := [];
        return None;
    }
  }

  // The replies of a successful execution.
  function Delivered(batch: seq<Request>, at: nat -> Value): seq<Reply> {
    seq(|batch|, i requires 0 <= i < |batch| => Reply(batch[i].id, batch[i].retries, Result(at(i))))
  }

  // The drain of batch `was` at position i: what lies before i was kept, the rest is still to be tested.
  ghost predicate Draining(was: seq<Request>, canceled: Id -> bool, batch: seq<Request>, i: nat,
                           tested: seq<Request>, dropped: seq<Request>) {
    && i <= |batch|
    && Splits(tested, canceled, batch[..i], dropped)
    && multiset(tested) + multiset(batch[i..]) == multiset(was)
  }

  lemma DrainKeeps(was: seq<Request>, canceled: Id -> bool, batch: seq<Request>, i: nat,
                   tested: seq<Request>, dropped: seq<Request>)
    requires Draining(was, canceled, batch, i, tested, dropped) && i < |batch| && !canceled(batch[i].id)
    ensures Draining(was, canceled, batch, i + 1, tested + [batch[i]], dropped)
  {
    assert batch[i..] == [batch[i]] + batch[i + 1..] && batch[..i + 1] == batch[..i] + [batch[i]];
  }

  lemma DrainDone(was: seq<Request>, canceled: Id -> bool, batch: seq<Request>,
                  tested: seq<Request>, dropped: seq<Request>)
    requires Draining(was, canceled, batch, |batch|, tested, dropped)
    ensures Splits(was, canceled, batch, dropped) && multiset(tested) == multiset(was)
  {
    assert batch[..|batch|] == batch;
  }

  lemma DrainDrops(was: seq<Request>, canceled: Id -> bool, batch: seq<Request>, i: nat,
                   tested: seq<Request>, dropped: seq<Request>)
    requires Draining(was, canceled, batch, i, tested, dropped) && i < |batch| && canceled(batch[i].id)
    ensures Draining(was, canceled, SwapRemoved(batch, i), i, tested + [batch[i]], dropped + [batch[i]])
  {
    assert batch[i..] == [batch[i]] + batch[i + 1..];
    SwapRemovedRest(batch, i);
  }

  // ----- answering a whole batch -----

  function AllAnswered(batch: seq<Request>, answer: Answer): seq<Reply> {
    seq(|batch|, i requires 0 <= i < |batch| => Reply(batch[i].id, batch[i].retries, answer))
  }

  lemma AnsweredOneMore(batch: seq<Request>, request: Request, answer: Answer)
    ensures AllAnswered(batch + [request], answer) ==
      AllAnswered(batch, answer) + [Reply(request.id, request.retries, answer)]
  {
  }

  lemma SwapRemovedRest<T>(s: seq<T>, i: nat)
    requires i < |s|
    ensures SwapRemoved(s, i)[..i] == s[..i]
    ensures multiset(SwapRemoved(s, i)[i..]) == multiset(s[i + 1..])
  {
    if i < |s| - 1 {
      var last := s[|s| - 1];
      assert s[i + 1..] == s[i + 1..|s| - 1] + [last];
      assert SwapRemoved(s, i)[i..] == [last] + s[i + 1..|s| - 1];
    }
  }

  // ----- a whole batch -----

  // How many executions a request took part in.
  function Rounds(executions: seq<Execution>, id: Id): nat {
    if executions == [] then 0
    else Rounds(executions[..|executions| - 1], id) + (if id in executions[|executions| - 1].ids then 1 else 0)
  }

  function IsRequest(id: Id): Request -> int {
    (r: Request) => if r.id == id then 1 else 0
  }

  function IsReply(id: Id): Reply -> int {
    (p: Reply) => if p.id == id then 1 else 0
  }

  // The requests so far, with their arguments, and what became of them.
  datatype Snapshot = Snapshot(
    sent: map<Id, Arg>, batch: seq<Request>, replies: seq<Reply>, executions: seq<Execution>)

  // The reply is the one an execution computed for the argument of this very request.
  ghost predicate ComputedBy(s: Snapshot, p: Reply, e: Execution, i: nat) {
    && i < |e.ids| == |e.args| && e.ids[i] == p.id
    && p.id in s.sent && e.args[i] == s.sent[p.id]
    && e.result.Success? && p.answer == Result(e.result.at(i))
  }

  ghost predicate Computed(s: Snapshot, p: Reply) {
    exists e, i :: e in s.executions && ComputedBy(s, p, e, i)
  }

  // A reply reports the number of executions of its request, and what one of them computed for it.
  ghost predicate Right(s: Snapshot, p: Reply) {
    && p.retries == Rounds(s.executions, p.id)
    && (p.answer.Result? ==> Computed(s, p))
  }

  ghost predicate Carried(s: Snapshot, r: Request) {
    r.id in s.sent && s.sent[r.id] == r.arg && r.retries == Rounds(s.executions, r.id)
  }

  // Every request sent is either in the batch or answered, once.
  ghost predicate Conserved(s: Snapshot) {
    forall id :: Sum(IsRequest(id), s.batch) + Sum(IsReply(id), s.replies) == if id in s.sent then 1 else 0
  }

  ghost predicate Good(s: Snapshot) {
    && Conserved(s)
    && (forall r :: r in s.batch ==> Carried(s, r))
    && (forall p :: p in s.replies ==> Right(s, p))
    && (forall id :: id !in s.sent ==> Rounds(s.executions, id) == 0)
  }

  lemma {:induction false} SumNat<T>(f: T -> int, s: seq<T>, i: nat)
    requires forall x :: f(x) >= 0
    requires i < |s|
    ensures Sum(f, s) >= f(s[i])
  {
    if i > 0 {
      SumNat(f, s[1..], i - 1);
    } else {
      SumNonNegative(f, s[1..]);
    }
  }

  lemma {:induction false} SumNonNegative<T>(f: T -> int, s: seq<T>)
    requires forall x :: f(x) >= 0
    ensures Sum(f, s) >= 0
  {
    if s != [] { SumNonNegative(f, s[1..]); }
  }

  lemma NoneTwice(s: Snapshot, r: Request, p: Reply)
    requires Conserved(s)
    ensures r in s.batch && p in s.replies ==> r.id != p.id
  {
    if r in s.batch && p in s.replies {
      var i :| 0 <= i < |s.batch| && s.batch[i] == r;
      var j :| 0 <= j < |s.replies| && s.replies[j] == p;
      SumNat(IsRequest(r.id), s.batch, i);
      SumNat(IsReply(r.id), s.replies, j);
    }
  }

  // Replies to requests leaving the batch.
  lemma Leave(s: Snapshot, batch: seq<Request>, dropped: seq<Request>, answers: seq<Reply>)
    requires Good(s) && multiset(batch) + multiset(dropped) == multiset(s.batch)
    requires |answers| == |dropped|
    requires forall i :: 0 <= i < |answers| ==> answers[i].id == dropped[i].id && Right(s, answers[i])
    ensures Good(s.(batch := batch, replies := s.replies + answers))
  {
    var s' := s.(batch := batch, replies := s.replies + answers);
    forall id ensures Sum(IsRequest(id), batch) + Sum(IsReply(id), s'.replies) == if id in s.sent then 1 else 0 {
      assert multiset(batch + dropped) == multiset(s.batch);
      SumPermutes(IsRequest(id), batch + dropped, s.batch);
      SumConcat(IsRequest(id), batch, dropped);
      SumConcat(IsReply(id), s.replies, answers);
      SameIds(dropped, answers, id);
    }
    forall r | r in batch ensures Carried(s', r) {
      assert r in multiset(batch) + multiset(dropped);
      assert r in s.batch && Carried(s, r);
    }
    forall p | p in s'.replies ensures Right(s', p) {
      RightStays(s, s', p);
    }
  }

  lemma RightStays(s: Snapshot, s': Snapshot, p: Reply)
    requires Right(s, p) && s'.executions == s.executions && s'.sent == s.sent
    ensures Right(s', p)
  {
    if p.answer.Result? {
      var e, i :| e in s.executions && ComputedBy(s, p, e, i);
      assert ComputedBy(s', p, e, i);
    }
  }

  lemma {:induction false} SameIds(dropped: seq<Request>, answers: seq<Reply>, id: Id)
    requires |answers| == |dropped| && forall i :: 0 <= i < |answers| ==> answers[i].id == dropped[i].id
    ensures Sum(IsReply(id), answers) == Sum(IsRequest(id), dropped)
  {
    if dropped != [] { SameIds(dropped[1..], answers[1..], id); }
  }

  lemma Arrive(s: Snapshot, r: Request)
    requires Good(s) && r.id !in s.sent && r.retries == 0
    ensures Good(s.(sent := s.sent[r.id := r.arg], batch := s.batch + [r]))
  {
    var s' := s.(sent := s.sent[r.id := r.arg], batch := s.batch + [r]);
    forall id ensures Sum(IsRequest(id), s'.batch) + Sum(IsReply(id), s.replies) == if id in s'.sent then 1 else 0 {
      SumConcat(IsRequest(id), s.batch, [r]);
    }
    forall p | p in s.replies ensures Right(s', p) {
      if p.answer.Result? {
        var e, i :| e in s.executions && ComputedBy(s, p, e, i);
        assert ComputedBy(s', p, e, i);
      }
    }
  }

  // An execution: everyone in the batch, and nobody else, takes part.
  lemma Execute(s: Snapshot, result: ExecuteResult)
    requires Good(s)
    ensures Good(s.(batch := Retried(s.batch),
                    executions := s.executions + [Execution(Ids(s.batch), Args(s.batch), result)]))
  {
    var e := Execution(Ids(s.batch), Args(s.batch), result);
    var s' := s.(batch := Retried(s.batch), executions := s.executions + [e]);
    assert s'.executions[..|s.executions|] == s.executions;
    forall id ensures Sum(IsRequest(id), s'.batch) == Sum(IsRequest(id), s.batch) { RetriedIds(s.batch, id); }
    forall r | r in s'.batch ensures Carried(s', r) {
      var i :| 0 <= i < |s'.batch| && s'.batch[i] == r;
      assert Carried(s, s.batch[i]) && e.ids[i] == r.id;
    }
    forall p | p in s.replies ensures Right(s', p) {
      if p.id in e.ids {
        var i :| 0 <= i < |e.ids| && e.ids[i] == p.id;
        NoneTwice(s, s.batch[i], p);
      }
      if p.answer.Result? {
        var x, i :| x in s.executions && ComputedBy(s, p, x, i);
        assert ComputedBy(s', p, x, i) && x in s'.executions;
      }
    }
    forall i | 0 <= i < |e.ids| ensures e.ids[i] in s.sent { assert Carried(s, s.batch[i]); }
  }

  lemma {:induction false} RetriedIds(batch: seq<Request>, id: Id)
    ensures Sum(IsRequest(id), Retried(batch)) == Sum(IsRequest(id), batch)
  {
    if batch != [] {
      assert Retried(batch)[1..] == Retried(batch[1..]);
      RetriedIds(batch[1..], id);
    }
  }

  // One round, from the test for cancellation to the replies: executeBatch.
  lemma Deliveries(s: Snapshot, at: nat -> Value)
    requires Good(s) && s.executions != []
    requires var e := s.executions[|s.executions| - 1];
      |e.ids| == |e.args| == |s.batch| && e.result == Success(at)
      && forall i :: 0 <= i < |s.batch| ==> e.ids[i] == s.batch[i].id && e.args[i] == s.batch[i].arg
    ensures Good(s.(batch := [], replies := s.replies + Delivered(s.batch, at)))
  {
    var e, answers := s.executions[|s.executions| - 1], Delivered(s.batch, at);
    forall i | 0 <= i < |answers| ensures answers[i].id == s.batch[i].id && Right(s, answers[i]) {
      assert Carried(s, s.batch[i]) && ComputedBy(s, answers[i], e, i);
    }
    Leave(s, [], s.batch, answers);
  }

  lemma Failures(s: Snapshot, answer: Answer, batch: seq<Request>, dropped: seq<Request>)
    requires Good(s) && !answer.Result? && multiset(batch) + multiset(dropped) == multiset(s.batch)
    ensures Good(s.(batch := batch, replies := s.replies + AllAnswered(dropped, answer)))
  {
    var answers := AllAnswered(dropped, answer);
    forall i | 0 <= i < |answers| ensures answers[i].id == dropped[i].id && Right(s, answers[i]) {
      assert dropped[i] in multiset(batch) + multiset(dropped);
      assert Carried(s, dropped[i]);
    }
    Leave(s, batch, dropped, answers);
  }

  // What the select of processBatch may receive.
  datatype Event =
    | Arrives(request: Request)
    | Fires(canceled: Id -> bool, execute: (seq<Id>, seq<Arg>) -> ExecuteResult)
    | Shutdown

  // The requests a goroutine is given, by the first i events.
  ghost function Sent(initial: Request, events: seq<Event>): map<Id, Arg> {
    if events == [] then map[initial.id := initial.arg]
    else SentAfter(Sent(initial, events[..|events| - 1]), events[|events| - 1])
  }

  ghost function SentAfter(before: map<Id, Arg>, event: Event): map<Id, Arg> {
    if event.Arrives? then before[event.request.id := event.request.arg] else before
  }

  ghost predicate NewRequest(before: map<Id, Arg>, event: Event) {
    event.Arrives? ==> event.request.id !in before && event.request.retries == 0
  }

  // The batch executed once, by what this event has for Adapter.Execute; an empty one is not.
  ghost function Executed(s: Snapshot, execute: (seq<Id>, seq<Arg>) -> ExecuteResult): Snapshot {
    if s.batch == [] then s
    else
      var result := execute(Ids(s.batch), Args(s.batch));
      s.(batch := if result.NeedRetry? then Retried(s.batch) else [],
         replies := s.replies + (match result
           case Success(at) => Delivered(Retried(s.batch), at)
           case NeedRetry(_) => []
           case Err => AllAnswered(Retried(s.batch), ExecuteError)),
         executions := s.executions + [Execution(Ids(s.batch), Args(s.batch), result)])
  }

  // A firing: some requests are canceled and answered so, the others are executed. Answered requests count as gone.
  ghost predicate Fired(s: Snapshot, canceled: Id -> bool, execute: (seq<Id>, seq<Arg>) -> ExecuteResult,
                        s': Snapshot) {
    exists kept, dropped ::
      Splits(s.batch, canceled, kept, dropped) && s' == Executed(Drained(s, kept, dropped), execute)
  }

  ghost function Drained(s: Snapshot, kept: seq<Request>, dropped: seq<Request>): Snapshot {
    s.(batch := kept, replies := s.replies + AllAnswered(dropped, OperationCanceled))
  }

  ghost predicate Replied(s: Snapshot, id: Id, answer: Answer) {
    exists p :: p in s.replies && p.id == id && p.answer == answer
  }

  // An execution for the requests whose context is not canceled, and what it leaves: results for all of them, an error
  // for all of them, or the same requests for another execution.
  ghost predicate Settles(s: Snapshot, canceled: Id -> bool, e: Execution, s': Snapshot) {
    && |e.args| == |e.ids|
    && (forall id :: id in e.ids <==> !canceled(id) && exists r :: r in s.batch && r.id == id)
    && match e.result
       case Success(at) => s'.batch == [] && forall i :: 0 <= i < |e.ids| ==> Replied(s', e.ids[i], Result(at(i)))
       case Err => s'.batch == [] && forall i :: 0 <= i < |e.ids| ==> Replied(s', e.ids[i], ExecuteError)
       case NeedRetry(_) => |s'.batch| == |e.ids| && forall i :: 0 <= i < |e.ids| ==> s'.batch[i].id == e.ids[i]
  }

  // A firing answers every canceled request and executes the others, if there are any, once.
  lemma FiringOutcome(s: Snapshot, canceled: Id -> bool, execute: (seq<Id>, seq<Arg>) -> ExecuteResult, s': Snapshot)
    requires Fired(s, canceled, execute, s')
    ensures forall r :: r in s.batch && canceled(r.id) ==> Replied(s', r.id, OperationCanceled)
    ensures (forall r :: r in s.batch ==> canceled(r.id)) ==> s'.batch == [] && s'.executions == s.executions
    ensures (exists r :: r in s.batch && !canceled(r.id)) ==>
      exists e ::
        s'.executions == s.executions + [e] && e.result == execute(e.ids, e.args) && Settles(s, canceled, e, s')
  {
    var kept, dropped :|
      Splits(s.batch, canceled, kept, dropped) && s' == Executed(Drained(s, kept, dropped), execute);
    SplitsMembers(s.batch, canceled, kept, dropped);
    forall r | r in s.batch && canceled(r.id) ensures Replied(s', r.id, OperationCanceled) {
      var k :| 0 <= k < |dropped| && dropped[k] == r;
      var p := AllAnswered(dropped, OperationCanceled)[k];
      assert p in s'.replies;
    }
    if r :| r in s.batch && !canceled(r.id) {
      assert r in kept;
      var e := Execution(Ids(kept), Args(kept), execute(Ids(kept), Args(kept)));
      KeptSettles(s, canceled, kept, dropped, execute, e);
    }
  }

  lemma SplitsMembers(batch: seq<Request>, canceled: Id -> bool, kept: seq<Request>, dropped: seq<Request>)
    requires Splits(batch, canceled, kept, dropped)
    ensures forall r :: r in kept <==> r in batch && !canceled(r.id)
    ensures forall r :: r in dropped <==> r in batch && canceled(r.id)
    ensures kept == [] <==> forall r :: r in batch ==> canceled(r.id)
  {
    if kept != [] { assert kept[0] in kept; }
    forall r ensures r in batch <==> r in kept || r in dropped {
      assert multiset(batch)[r] == multiset(kept)[r] + multiset(dropped)[r];
      assert r in multiset(batch) <==> r in batch;
    }
  }

  lemma KeptSettles(s: Snapshot, canceled: Id -> bool, kept: seq<Request>, dropped: seq<Request>,
                    execute: (seq<Id>, seq<Arg>) -> ExecuteResult, e: Execution)
    requires kept != [] && forall r :: r in kept <==> r in s.batch && !canceled(r.id)
    requires e == Execution(Ids(kept), Args(kept), execute(Ids(kept), Args(kept)))
    ensures Settles(s, canceled, e, Executed(Drained(s, kept, dropped), execute))
  {
    var s' := Executed(Drained(s, kept, dropped), execute);
    forall id ensures id in e.ids <==> !canceled(id) && exists r :: r in s.batch && r.id == id {
      if r :| r in s.batch && r.id == id && !canceled(id) {
        var k :| 0 <= k < |kept| && kept[k] == r;
        assert e.ids[k] == id;
      }
      if id in e.ids {
        var k :| 0 <= k < |e.ids| && e.ids[k] == id;
        assert kept[k] in s.batch && kept[k].id == id;
      }
    }
    if e.result.Success? {
      forall i | 0 <= i < |e.ids| ensures Replied(s', e.ids[i], Result(e.result.at(i))) {
        assert Delivered(Retried(kept), e.result.at)[i] in s'.replies;
      }
    } else if e.result.Err? {
      forall i | 0 <= i < |e.ids| ensures Replied(s', e.ids[i], ExecuteError) {
        assert AllAnswered(Retried(kept), ExecuteError)[i] in s'.replies;
      }
    }
  }

  // What one event does, and whether the loop ends with it: at a shutdown, or when a firing leaves nothing to retry.
  ghost predicate Turn(s: Snapshot, event: Event, s': Snapshot, ended: bool) {
    match event
    case Arrives(r) => !ended && s' == s.(sent := SentAfter(s.sent, event), batch := s.batch + [r])
    case Fires(canceled, execute) => Fired(s, canceled, execute, s') && (ended <==> s'.batch == [])
    case Shutdown => ended && s' == s.(batch := [], replies := s.replies + AllAnswered(s.batch, PoolCanceled))
  }

  // executeBatch: drain, then execute.
  method ExecuteBatch(b: Batcher, canceled: Id -> bool, execute: (seq<Id>, seq<Arg>) -> ExecuteResult,
                      ghost sent: map<Id, Arg>)
    returns (nextExecute: Option<nat>)
    modifies b
    ensures var batch := if nextExecute == None then [] else b.batch;
      && Fired(Snapshot(sent, old(b.batch), old(b.replies), old(b.executions)), canceled, execute,
               Snapshot(sent, batch, b.replies, b.executions))
      && (nextExecute == None <==> batch == [])
  {
    ghost var s := Snapshot(sent, b.batch, b.replies, b.executions);
    ghost var tested, dropped := b.DrainCanceled(canceled);
    ghost var kept := b.batch;
    nextExecute := b.TryExecuteBatch(execute);
    assert Executed(Drained(s, kept, dropped), execute) ==
      Snapshot(sent, if nextExecute == None then [] else b.batch, b.replies, b.executions);
  }

  // One turn of the loop.
  method HandleEvent(b: Batcher, event: Event, ghost sent: map<Id, Arg>) returns (ended: bool)
    modifies b
    ensures Turn(Snapshot(sent, old(b.batch), old(b.replies), old(b.executions)), event,
                 Snapshot(SentAfter(sent, event), if ended then [] else b.batch, b.replies, b.executions), ended)
  {
    match event {
      case Arrives(request) =>
        b.Append(request);
        ended := false;
      case Fires(canceled, execute) =>
        var nextExecute := ExecuteBatch(b, canceled, execute, sent);
        ended := nextExecute == None;
      case Shutdown =>
        b.AnswerAll(PoolCanceled);
        ended := true;
    }
  }

  // ----- runs of the loop -----

  ghost predicate Starts(initial: Request, s: Snapshot) {
    s == Snapshot(map[initial.id := initial.arg], [initial], [], [])
  }

  // The states of a batch along the events it takes; only the last of these may end it.
  ghost predicate IsRun(initial: Request, events: seq<Event>, run: seq<Snapshot>, ended: bool) {
    && |run| == |events| + 1 && Starts(initial, run[0]) && (ended ==> events != [])
    && forall i :: 0 <= i < |events| ==> Turn(run[i], events[i], run[i + 1], ended && i == |events| - 1)
  }

  lemma RunSnoc(initial: Request, events: seq<Event>, run: seq<Snapshot>, event: Event, s: Snapshot, ended: bool)
    requires IsRun(initial, events, run, false) && |run| > 0 && Turn(run[|run| - 1], event, s, ended)
    ensures IsRun(initial, events + [event], run + [s], ended)
  {
    var more, longer := events + [event], run + [s];
    forall i | 0 <= i < |more| ensures Turn(longer[i], more[i], longer[i + 1], ended && i == |more| - 1) {
      if i < |events| { assert Turn(run[i], events[i], run[i + 1], false); }
    }
  }

  // The whole life of a batch: its loop takes the events in order, until one ends it.
  method ProcessBatch(initial: Request, events: seq<Event>)
    returns (ended: bool, b: Batcher, taken: nat, ghost run: seq<Snapshot>)
    ensures taken <= |events| && (!ended ==> taken == |events|)
    ensures IsRun(initial, events[..taken], run, ended)
    ensures run[taken] ==
      Snapshot(Sent(initial, events[..taken]), if ended then [] else b.batch, b.replies, b.executions)
  {
    b := new Batcher(initial);
    ended, taken := false, 0;
    run := [Snapshot(map[initial.id := initial.arg], [initial], [], [])];
    while taken < |events| && !ended
      invariant taken <= |events| && fresh(b)
      invariant IsRun(initial, events[..taken], run, ended)
      invariant |run| == taken + 1
      invariant run[taken] ==
        Snapshot(Sent(initial, events[..taken]), if ended then [] else b.batch, b.replies, b.executions)
      decreases |events| - taken
    {
      assert events[..taken + 1][..taken] == events[..taken];
      assert events[..taken + 1] == events[..taken] + [events[taken]];
      hide Turn, IsRun;
      ended := HandleEvent(b, events[taken], Sent(initial, events[..taken]));
      ghost var s :=
        Snapshot(Sent(initial, events[..taken + 1]), if ended then [] else b.batch, b.replies, b.executions);
      RunSnoc(initial, events[..taken], run, events[taken], s, ended);
      run := run + [s];
      taken := taken + 1;
    }
  }

  // ----- what every run promises -----

  lemma Start(initial: Request)
    requires initial.retries == 0
    ensures Good(Snapshot(map[initial.id := initial.arg], [initial], [], []))
  {
    forall id ensures Sum(IsRequest(id), [initial]) == if id == initial.id then 1 else 0 {
      assert [initial] == [initial] + [];
    }
  }

  // A firing keeps the accounts.
  lemma ExecutedGood(s: Snapshot, execute: (seq<Id>, seq<Arg>) -> ExecuteResult)
    requires Good(s)
    ensures Good(Executed(s, execute))
  {
    if s.batch != [] {
      var result := execute(Ids(s.batch), Args(s.batch));
      Execute(s, result);
      var t := s.(batch := Retried(s.batch),
                  executions := s.executions + [Execution(Ids(s.batch), Args(s.batch), result)]);
      match result
      case Success(at) => Deliveries(t, at);
      case NeedRetry(_) => assert t.replies + [] == t.replies;
      case Err => Failures(t, ExecuteError, [], t.batch);
    }
  }

  lemma TurnGood(s: Snapshot, event: Event, s': Snapshot, ended: bool)
    requires Good(s) && NewRequest(s.sent, event) && Turn(s, event, s', ended)
    ensures Good(s')
  {
    hide Good;
    match event
    case Arrives(r) => Arrive(s, r);
    case Fires(canceled, execute) =>
      var kept, dropped :|
        Splits(s.batch, canceled, kept, dropped) && s' == Executed(Drained(s, kept, dropped), execute);
      Failures(s, OperationCanceled, kept, dropped);
      ExecutedGood(Drained(s, kept, dropped), execute);
    case Shutdown => Failures(s, PoolCanceled, [], s.batch);
  }

  ghost predicate NewRequests(initial: Request, events: seq<Event>) {
    initial.retries == 0 && forall i :: 0 <= i < |events| ==> NewRequest(Sent(initial, events[..i]), events[i])
  }

  lemma {:induction false} RunSent(initial: Request, events: seq<Event>, run: seq<Snapshot>, ended: bool, i: nat)
    requires IsRun(initial, events, run, ended) && i <= |events|
    ensures run[i].sent == Sent(initial, events[..i])
  {
    if i > 0 {
      RunSent(initial, events, run, ended, i - 1);
      assert Turn(run[i - 1], events[i - 1], run[i - 1 + 1], ended && i - 1 == |events| - 1);
      assert events[..i][..i - 1] == events[..i - 1];
      TurnSent(run[i - 1], events[i - 1], run[i], ended && i - 1 == |events| - 1);
    }
  }

  lemma TurnSent(s: Snapshot, event: Event, s': Snapshot, ended: bool)
    requires Turn(s, event, s', ended)
    ensures s'.sent == SentAfter(s.sent, event)
  {
  }

  // In every state every request the goroutine took is in the batch or answered, exactly once, with the number of
  // executions it took part in and a result that one of them computed for its own argument.
  lemma {:induction false} RunGood(initial: Request, events: seq<Event>, run: seq<Snapshot>, ended: bool, i: nat)
    requires IsRun(initial, events, run, ended) && NewRequests(initial, events) && i <= |events|
    ensures Good(run[i])
  {
    if i == 0 {
      Start(initial);
    } else {
      RunGood(initial, events, run, ended, i - 1);
      RunSent(initial, events, run, ended, i - 1);
      assert Turn(run[i - 1], events[i - 1], run[i - 1 + 1], ended && i - 1 == |events| - 1);
      hide Good, Turn;
      TurnGood(run[i - 1], events[i - 1], run[i], ended && i - 1 == |events| - 1);
    }
  }

  // The executions are those of the firings, in their order, at most one each, and each returned what its firing has
  // for Adapter.Execute.
  ghost predicate Logged(events: seq<Event>, executions: seq<Execution>)
    decreases |events|
  {
    if events == [] then executions == []
    else
      var before, last := events[..|events| - 1], events[|events| - 1];
      || Logged(before, executions)
      || ( && last.Fires? && executions != [] && Logged(before, executions[..|executions| - 1])
           && LoggedBy(last, executions[|executions| - 1]))
  }

  ghost predicate LoggedBy(event: Event, e: Execution)
    requires event.Fires?
  {
    e.ids != [] && e.result == event.execute(e.ids, e.args)
  }

  lemma {:induction false} RunLogged(initial: Request, events: seq<Event>, run: seq<Snapshot>, ended: bool, i: nat)
    requires IsRun(initial, events, run, ended) && i <= |events|
    ensures Logged(events[..i], run[i].executions)
  {
    if i > 0 {
      var s, s', event := run[i - 1], run[i], events[i - 1];
      RunLogged(initial, events, run, ended, i - 1);
      assert Turn(s, event, run[i - 1 + 1], ended && i - 1 == |events| - 1);
      assert events[..i][..i - 1] == events[..i - 1];
      if event.Fires? && s'.executions != s.executions {
        assert s'.executions[..|s'.executions| - 1] == s.executions;
      }
    }
  }

  // Why a request got an answer other than a result: its own context was canceled, an execution it was in failed, or
  // the pool shut down and the loop ended.
  ghost predicate Explained(events: seq<Event>, s: Snapshot, p: Reply) {
    match p.answer
    case Result(_) => true
    case ExecuteError => exists e :: e in s.executions && e.result.Err? && p.id in e.ids
    case OperationCanceled => exists i :: 0 <= i < |events| && events[i].Fires? && events[i].canceled(p.id)
    case PoolCanceled => events != [] && events[|events| - 1].Shutdown?
  }

  lemma {:induction false} RunExplained(initial: Request, events: seq<Event>, run: seq<Snapshot>, ended: bool, i: nat)
    requires IsRun(initial, events, run, ended) && i <= |events|
    ensures forall p :: p in run[i].replies ==> Explained(events[..i], run[i], p)
  {
    if i > 0 {
      RunExplained(initial, events, run, ended, i - 1);
      assert Turn(run[i - 1], events[i - 1], run[i - 1 + 1], ended && i - 1 == |events| - 1);
      NotYetShutdown(initial, events, run, ended, i - 1);
      TurnExplained(events[..i], run[i - 1], run[i], ended && i - 1 == |events| - 1);
    }
  }

  lemma NotYetShutdown(initial: Request, events: seq<Event>, run: seq<Snapshot>, ended: bool, i: nat)
    requires IsRun(initial, events, run, ended) && i < |events|
    ensures forall j :: 0 <= j < i ==> !events[j].Shutdown?
  {
    forall j | 0 <= j < i ensures !events[j].Shutdown? {
      assert Turn(run[j], events[j], run[j + 1], ended && j == |events| - 1);
    }
  }

  lemma TurnExplained(events: seq<Event>, s: Snapshot, s': Snapshot, ended: bool)
    requires events != [] && Turn(s, events[|events| - 1], s', ended)
    requires forall p :: p in s.replies ==> Explained(events[..|events| - 1], s, p)
    requires forall j :: 0 <= j < |events| - 1 ==> !events[j].Shutdown?
    ensures forall p :: p in s'.replies ==> Explained(events, s', p)
  {
    var before, event := events[..|events| - 1], events[|events| - 1];
    forall p | p in s.replies ensures Explained(events, s', p) {
      StillExplained(before, event, s, s', p);
      assert before + [event] == events;
    }
    if event.Fires? {
      var kept, dropped :|
        Splits(s.batch, event.canceled, kept, dropped) && s' == Executed(Drained(s, kept, dropped), event.execute);
      forall p | p in AllAnswered(dropped, OperationCanceled) ensures Explained(events, s', p) {
        var k :| 0 <= k < |dropped| && p == AllAnswered(dropped, OperationCanceled)[k];
        assert dropped[k] in dropped && events[|events| - 1].canceled(p.id);
      }
      ExecutedExplained(events, Drained(s, kept, dropped), event.execute);
    }
  }

  lemma StillExplained(before: seq<Event>, event: Event, s: Snapshot, s': Snapshot, p: Reply)
    requires Explained(before, s, p) && forall e :: e in s.executions ==> e in s'.executions
    requires forall j :: 0 <= j < |before| ==> !before[j].Shutdown?
    ensures Explained(before + [event], s', p)
  {
    if p.answer.OperationCanceled? {
      var i :| 0 <= i < |before| && before[i].Fires? && before[i].canceled(p.id);
      assert (before + [event])[i].canceled(p.id);
    }
  }

  lemma ExecutedExplained(events: seq<Event>, s: Snapshot, execute: (seq<Id>, seq<Arg>) -> ExecuteResult)
    ensures forall p ::
      p in Executed(s, execute).replies && p !in s.replies ==> Explained(events, Executed(s, execute), p)
  {
    var s' := Executed(s, execute);
    forall p | p in s'.replies && p !in s.replies ensures Explained(events, s', p) {
      var e := s'.executions[|s'.executions| - 1];
      if p.answer.ExecuteError? {
        var k :| 0 <= k < |s.batch| && p == AllAnswered(Retried(s.batch), ExecuteError)[k];
        assert e in s'.executions && e.ids[k] == p.id;
      }
    }
  }

  // In particular: a request is answered exactly once by the time the loop ends.
  lemma AnsweredOnce(s: Snapshot, id: Id)
    requires Good(s) && s.batch == [] && id in s.sent
    ensures exists i :: 0 <= i < |s.replies| && s.replies[i].id == id
    ensures forall i, j ::
      0 <= i < |s.replies| && 0 <= j < |s.replies| && s.replies[i].id == s.replies[j].id == id ==> i == j
  {
    AnsweredAt(s.replies, id);
  }

  lemma {:induction false} AnsweredAt(replies: seq<Reply>, id: Id)
    requires Sum(IsReply(id), replies) == 1
    ensures exists i :: 0 <= i < |replies| && replies[i].id == id
    ensures forall i, j :: 0 <= i < |replies| && 0 <= j < |replies| && replies[i].id == replies[j].id == id ==> i == j
  {
    var rest := replies[1..];
    if replies[0].id == id {
      forall i | 0 <= i < |rest| ensures rest[i].id != id { if rest[i].id == id { SumNat(IsReply(id), rest, i); } }
    } else {
      AnsweredAt(rest, id);
    }
  }
}
