/**
 Which requests the resolution of dependencies makes (util/component/interface.go, resolveRequest), apart from how it
 counts them, and when it comes back to a component that is being resolved.
 */
module RequestWalk {
  import opened Common
  import opened Toposort

  // The requester that stands for the program itself. No component has this name.
  const MAIN: Name := "_main"

  // A request, with what its component asks for when it is new and when it is merged into one that exists.
  datatype Request = Request(name: Name, deps: seq<Request>, mergeDeps: seq<Request>)

  ghost predicate Named(request: Request) {
    && request.name != MAIN
    && (forall i :: 0 <= i < |request.deps| ==> Named(request.deps[i]))
    && (forall i :: 0 <= i < |request.mergeDeps| ==> Named(request.mergeDeps[i]))
  }

  // ----- the walk -----

  // What is resolved in the end, and who requested whom how often on the way.
  datatype Trip = Trip(done: set<Name>, made: multiset<(Name, Name)>)

  // A request by `from`, when `done` is resolved and `open` is being resolved; None when the walk, on which a component
  // is new the first time and merged from then on, comes back to one being resolved.
  ghost function Walk(request: Request, from: Name, done: set<Name>, open: set<Name>): Option<Trip>
    decreases request, 0
  {
    var name := request.name;
    if name in open then None
    else if name in done then Own(WalkAll(request.mergeDeps, name, done, open), from, name)
    else Own(WalkAll(request.deps, name, done, open + {name}), from, name)
  }

  // The component is resolved and the request for it made after a walk.
  ghost function Own(walk: Option<Trip>, from: Name, name: Name): Option<Trip> {
    match walk
    case None => None
    case Some(t) => Some(Trip(t.done + {name}, t.made + multiset{(from, name)}))
  }

  ghost function WalkAll(requests: seq<Request>, from: Name, done: set<Name>, open: set<Name>): Option<Trip>
    decreases requests
  {
    if requests == [] then Some(Trip(done, multiset{}))
    else Then(WalkAll(requests[..|requests| - 1], from, done, open), requests[|requests| - 1], from, open)
  }

  // One more request after a walk.
  ghost function Then(walk: Option<Trip>, request: Request, from: Name, open: set<Name>): Option<Trip>
    decreases request, 1
  {
    match walk
    case None => None
    case Some(t) =>
      match Walk(request, from, t.done, open)
      case None => None
      case Some(u) => Some(Trip(u.done, t.made + u.made))
  }

  lemma {:induction false} WalkNext(requests: seq<Request>, i: nat, from: Name, done: set<Name>, open: set<Name>)
    requires i < |requests|
    ensures WalkAll(requests[..i + 1], from, done, open) ==
      Then(WalkAll(requests[..i], from, done, open), requests[i], from, open)
    ensures WalkAll(requests[..i + 1], from, done, open) == None ==> WalkAll(requests, from, done, open) == None
    decreases |requests| - i
  {
    assert requests[..i + 1][..i] == requests[..i];
    if i + 1 == |requests| {
      assert requests[..i + 1] == requests;
    } else {
      WalkNext(requests, i + 1, from, done, open);
    }
  }

  // The requests of the program.
  ghost function WalkOf(requests: seq<Request>): Option<Trip> {
    WalkAll(requests, MAIN, {}, {})
  }

  // ----- when it comes back -----

  // No component is requested, anew, while its own dependencies are being resolved.
  ghost predicate NoRecursion(request: Request, resolving: set<Name>) {
    && request.name !in resolving
    && (forall i :: 0 <= i < |request.deps| ==> NoRecursion(request.deps[i], resolving + {request.name}))
    && (forall i :: 0 <= i < |request.mergeDeps| ==> NoRecursion(request.mergeDeps[i], resolving))
  }

  // Without recursive requests the walk never comes back.
  lemma {:induction false} NoRecursionWalks(request: Request, from: Name, done: set<Name>, open: set<Name>)
    requires NoRecursion(request, open)
    ensures Walk(request, from, done, open) != None
    decreases request
  {
    var name := request.name;
    forall i, d | 0 <= i < |request.deps| ensures Walk(request.deps[i], name, d, open + {name}) != None {
      NoRecursionWalks(request.deps[i], name, d, open + {name});
    }
    forall i, d | 0 <= i < |request.mergeDeps| ensures Walk(request.mergeDeps[i], name, d, open) != None {
      NoRecursionWalks(request.mergeDeps[i], name, d, open);
    }
    AllWalk(request.deps, name, done, open + {name});
    AllWalk(request.mergeDeps, name, done, open);
  }

  lemma {:induction false} AllWalk(requests: seq<Request>, from: Name, done: set<Name>, open: set<Name>)
    requires forall i, d :: 0 <= i < |requests| ==> Walk(requests[i], from, d, open) != None
    ensures WalkAll(requests, from, done, open) != None
  {
    if requests != [] {
      var last := |requests| - 1;
      AllWalk(requests[..last], from, done, open);
      assert Walk(requests[last], from, WalkAll(requests[..last], from, done, open).value.done, open) != None;
    }
  }

  // ----- requests of one name that agree -----

  type Deps = Name -> set<Name>

  function Names(requests: seq<Request>): set<Name> {
    set i | 0 <= i < |requests| :: requests[i].name
  }

  // Requests for a component that is there ask for nothing new.
  ghost predicate MergeAgrees(request: Request, deps: Deps) {
    forall i :: 0 <= i < |request.mergeDeps| ==>
      request.mergeDeps[i].name in deps(request.name) && MergeAgrees(request.mergeDeps[i], deps)
  }

  // Every request of a name has the dependencies of that name; what a request for a component below itself would ask
  // for is not looked at.
  ghost predicate Agrees(request: Request, above: set<Name>, deps: Deps) {
    request.name in above || (
      && Names(request.deps) == deps(request.name) && MergeAgrees(request, deps)
      && forall i :: 0 <= i < |request.deps| ==> Agrees(request.deps[i], above + {request.name}, deps))
  }

  ghost predicate DepPath(deps: Deps, path: seq<Name>) {
    forall i :: 0 <= i < |path| - 1 ==> path[i + 1] in deps(path[i])
  }

  // A path from a requested component that meets a component twice.
  ghost predicate Returns(deps: Deps, path: seq<Name>, names: set<Name>) {
    path != [] && path[0] in names && DepPath(deps, path) && !Distinct(path)
  }

  ghost predicate DependsOnItself(deps: Deps, names: set<Name>) {
    exists path :: Returns(deps, path, names)
  }

  // Resolved components have their dependencies resolved, and none depends on itself.
  ghost predicate Settles(deps: Deps, done: set<Name>) {
    && (forall x :: x in done ==> deps(x) <= done)
    && forall path :: DepPath(deps, path) && path != [] && path[0] in done ==> Distinct(path)
  }

  lemma {:induction false} StaysIn(deps: Deps, done: set<Name>, path: seq<Name>, j: nat)
    requires (forall x :: x in done ==> deps(x) <= done) && DepPath(deps, path)
    requires j < |path| && path[0] in done
    ensures path[j] in done
  {
    if j > 0 {
      StaysIn(deps, done, path, j - 1);
      assert path[(j - 1) + 1] in deps(path[j - 1]);
    }
  }

  lemma SettlesOneMore(deps: Deps, done: set<Name>, name: Name)
    requires Settles(deps, done) && deps(name) <= done
    ensures Settles(deps, done + {name})
  {
    if name !in done {
      forall path | DepPath(deps, path) && path != [] && path[0] in done + {name} ensures Distinct(path) {
        if path[0] == name && |path| > 1 {
          var rest := path[1..];
          assert path[0 + 1] in deps(path[0]);
          assert DepPath(deps, rest) by {
            forall i | 0 <= i < |rest| - 1 ensures rest[i + 1] in deps(rest[i]) {
              assert path[(i + 1) + 1] in deps(path[i + 1]);
            }
          }
          forall j | 0 <= j < |rest| ensures rest[j] in done { StaysIn(deps, done, rest, j); }
          assert path == [name] + rest && Distinct([name]);
          DistinctConcat([name], rest);
        }
      }
    }
  }

  // Nothing new is asked for by merging into a resolved component.
  lemma {:induction false} MergeWalks(request: Request, from: Name, done: set<Name>, open: set<Name>, deps: Deps)
    requires Settles(deps, done) && done !! open && request.name in done && MergeAgrees(request, deps)
    ensures Walk(request, from, done, open).Some? && Walk(request, from, done, open).value.done == done
    decreases request, 0
  {
    forall i | 0 <= i < |request.mergeDeps| ensures request.mergeDeps[i].name in done {
      assert request.mergeDeps[i].name in deps(request.name);
    }
    MergeWalksAll(request.mergeDeps, request.name, done, open, deps);
  }

  lemma {:induction false} MergeWalksAll(requests: seq<Request>, from: Name, done: set<Name>, open: set<Name>,
                                         deps: Deps)
    requires Settles(deps, done) && done !! open
    requires forall i :: 0 <= i < |requests| ==> requests[i].name in done && MergeAgrees(requests[i], deps)
    ensures WalkAll(requests, from, done, open).Some? && WalkAll(requests, from, done, open).value.done == done
    decreases requests
  {
    if requests != [] {
      var last := |requests| - 1;
      MergeWalksAll(requests[..last], from, done, open, deps);
      MergeWalks(requests[last], from, done, open, deps);
    }
  }

  // A walk that does not come back leaves resolved components that depend on no other, and none on itself.
  lemma {:induction false} WalkSettles(request: Request, from: Name, done: set<Name>, open: set<Name>, deps: Deps)
    requires Settles(deps, done) && done !! open && Agrees(request, open, deps)
    ensures var walk := Walk(request, from, done, open);
      walk.Some? ==>
        Settles(deps, walk.value.done) && done + {request.name} <= walk.value.done && walk.value.done !! open
    decreases request, 0
  {
    var name := request.name;
    if name in done {
      MergeWalks(request, from, done, open, deps);
    } else if name !in open {
      WalkAllSettles(request.deps, name, done, open + {name}, deps);
      var walk := WalkAll(request.deps, name, done, open + {name});
      if walk.Some? {
        SettlesOneMore(deps, walk.value.done, name);
      }
    }
  }

  lemma {:induction false} WalkAllSettles(requests: seq<Request>, from: Name, done: set<Name>, open: set<Name>,
                                          deps: Deps)
    requires Settles(deps, done) && done !! open
    requires forall i :: 0 <= i < |requests| ==> Agrees(requests[i], open, deps)
    ensures var walk := WalkAll(requests, from, done, open);
      walk.Some? ==>
        Settles(deps, walk.value.done) && done + Names(requests) <= walk.value.done && walk.value.done !! open
    decreases requests
  {
    if requests != [] {
      var last := |requests| - 1;
      var rest, walk := requests[..last], WalkAll(requests[..last], from, done, open);
      WalkAllSettles(rest, from, done, open, deps);
      if walk.Some? {
        WalkSettles(requests[last], from, walk.value.done, open, deps);
      }
      assert Names(requests) == Names(rest) + {requests[last].name} by { NamesSnoc(requests); }
    }
  }

  lemma NamesSnoc(requests: seq<Request>)
    requires requests != []
    ensures Names(requests) == Names(requests[..|requests| - 1]) + {requests[|requests| - 1].name}
  {
    var rest := requests[..|requests| - 1];
    forall x | x in Names(requests) ensures x in Names(rest) || x == requests[|requests| - 1].name {
      var i :| 0 <= i < |requests| && requests[i].name == x;
      assert i < |rest| ==> rest[i].name == x;
    }
    forall x | x in Names(rest) ensures x in Names(requests) {
      var i :| 0 <= i < |rest| && rest[i].name == x;
      assert requests[i].name == x;
    }
  }

  // Components being resolved, each requested by the one before.
  ghost predicate Stack(deps: Deps, stack: seq<Name>, open: set<Name>) {
    DepPath(deps, stack) && open == set x | x in stack
  }

  // Where the paths of a walk below a stack start.
  function Roots(stack: seq<Name>, requests: seq<Request>): set<Name> {
    if stack == [] then Names(requests) else {stack[0]}
  }

  lemma {:induction false} WalkReturns(request: Request, from: Name, done: set<Name>, stack: seq<Name>, open: set<Name>,
                                       deps: Deps)
    requires Settles(deps, done) && done !! open && Agrees(request, open, deps)
    requires Stack(deps, stack, open) && DepPath(deps, stack + [request.name])
    ensures Walk(request, from, done, open) == None ==> DependsOnItself(deps, Roots(stack, [request]))
    decreases request, 0
  {
    var name := request.name;
    var path := stack + [name];
    if name in open {
      var i :| 0 <= i < |stack| && stack[i] == name;
      assert path[i] == path[|stack|];
      assert path[0] in Roots(stack, [request]) by { assert [request][0].name == name; }
      assert Returns(deps, path, Roots(stack, [request]));
    } else if name in done {
      MergeWalks(request, from, done, open, deps);
    } else {
      assert Stack(deps, path, open + {name});
      forall i | 0 <= i < |request.deps| ensures DepPath(deps, path + [request.deps[i].name]) {
        assert request.deps[i].name in Names(request.deps);
      }
      WalkAllReturns(request.deps, name, done, path, open + {name}, deps);
      assert path[0] in Roots(stack, [request]) by { assert [request][0].name == name; }
      FromMore(deps, Roots(path, request.deps), Roots(stack, [request]));
    }
  }

  lemma {:induction false} WalkAllReturns(requests: seq<Request>, from: Name, done: set<Name>, stack: seq<Name>,
                                          open: set<Name>, deps: Deps)
    requires Settles(deps, done) && done !! open && Stack(deps, stack, open)
    requires forall i :: 0 <= i < |requests| ==>
      Agrees(requests[i], open, deps) && DepPath(deps, stack + [requests[i].name])
    ensures WalkAll(requests, from, done, open) == None ==>
      DependsOnItself(deps, Roots(stack, requests))
    decreases requests
  {
    if requests != [] {
      var last := |requests| - 1;
      var rest, walk := requests[..last], WalkAll(requests[..last], from, done, open);
      var roots := Roots(stack, requests);
      NamesSnoc(requests);
      WalkAllReturns(rest, from, done, stack, open, deps);
      if walk == None {
        FromMore(deps, Roots(stack, rest), roots);
      } else {
        assert Roots(stack, [requests[last]]) <= roots;
        WalkAllSettles(rest, from, done, open, deps);
        WalkReturns(requests[last], from, walk.value.done, stack, open, deps);
        assert WalkAll(requests, from, done, open) == Then(walk, requests[last], from, open);
        FromMore(deps, Roots(stack, [requests[last]]), roots);
      }
    }
  }

  lemma FromMore(deps: Deps, names: set<Name>, more: set<Name>)
    requires names <= more
    ensures DependsOnItself(deps, names) ==> DependsOnItself(deps, more)
  {
    if path :| Returns(deps, path, names) { assert Returns(deps, path, more); }
  }

  // Where requests of one name agree on their dependencies, the walk comes back exactly when a requested component, or
  // one it depends on, depends on itself.
  lemma ComesBackIff(requests: seq<Request>, deps: Deps)
    requires forall i :: 0 <= i < |requests| ==> Agrees(requests[i], {}, deps)
    ensures WalkOf(requests) == None <==> DependsOnItself(deps, Names(requests))
  {
    assert Settles(deps, {}) && Stack(deps, [], {});
    WalkAllSettles(requests, MAIN, {}, {}, deps);
    WalkAllReturns(requests, MAIN, {}, [], {}, deps);
  }

  // ----- what the walk requests -----

  // How often the list asks for a component.
  function Asks(requests: seq<Request>, name: Name): nat {
    if requests == [] then 0
    else Asks(requests[..|requests| - 1], name) + (if requests[|requests| - 1].name == name then 1 else 0)
  }

  lemma {:induction false} OthersAreNotMain(request: Request, from: Name, done: set<Name>, open: set<Name>)
    requires Named(request) && Walk(request, from, done, open).Some?
    ensures forall y ::
      Walk(request, from, done, open).value.made[(MAIN, y)] == if from == MAIN && y == request.name then 1 else 0
    ensures MAIN !in done ==> MAIN !in Walk(request, from, done, open).value.done
    decreases request, 0
  {
    var name := request.name;
    if name in done {
      ListIsNotMain(request.mergeDeps, name, done, open);
    } else {
      ListIsNotMain(request.deps, name, done, open + {name});
    }
  }

  lemma {:induction false} ListIsNotMain(requests: seq<Request>, from: Name, done: set<Name>, open: set<Name>)
    requires (forall i :: 0 <= i < |requests| ==> Named(requests[i])) && WalkAll(requests, from, done, open).Some?
    ensures forall y ::
      WalkAll(requests, from, done, open).value.made[(MAIN, y)] == if from == MAIN then Asks(requests, y) else 0
    ensures MAIN !in done ==> MAIN !in WalkAll(requests, from, done, open).value.done
    decreases requests
  {
    if requests != [] {
      var last := |requests| - 1;
      var walk := WalkAll(requests[..last], from, done, open);
      ListIsNotMain(requests[..last], from, done, open);
      OthersAreNotMain(requests[last], from, walk.value.done, open);
    }
  }

  // The requests made are by components for their dependencies, or those of the list; all of these are made.
  ghost predicate Makes(deps: Deps, before: set<Name>, trip: Trip, from: Name, names: set<Name>) {
    && (forall x, y :: trip.made[(x, y)] > 0 ==> y in deps(x) || (x == from && y in names))
    && (forall x, y :: x in trip.done && x !in before && y in deps(x) ==> trip.made[(x, y)] > 0)
    && (forall y :: y in names ==> trip.made[(from, y)] > 0)
  }

  lemma {:induction false} MergeMakes(request: Request, from: Name, done: set<Name>, open: set<Name>, deps: Deps)
    requires Settles(deps, done) && done !! open && request.name in done && MergeAgrees(request, deps)
    ensures Walk(request, from, done, open).Some?
    ensures Makes(deps, done, Walk(request, from, done, open).value, from, {request.name})
    decreases request, 0
  {
    MergeWalks(request, from, done, open, deps);
    forall i | 0 <= i < |request.mergeDeps| ensures request.mergeDeps[i].name in done {
      assert request.mergeDeps[i].name in deps(request.name);
    }
    MergeMakesAll(request.mergeDeps, request.name, done, open, deps);
    forall y | y in Names(request.mergeDeps) ensures y in deps(request.name) {
      var i :| 0 <= i < |request.mergeDeps| && request.mergeDeps[i].name == y;
    }
  }

  lemma {:induction false} MergeMakesAll(requests: seq<Request>, from: Name, done: set<Name>, open: set<Name>,
                                         deps: Deps)
    requires Settles(deps, done) && done !! open
    requires forall i :: 0 <= i < |requests| ==> requests[i].name in done && MergeAgrees(requests[i], deps)
    ensures WalkAll(requests, from, done, open).Some?
    ensures Makes(deps, done, WalkAll(requests, from, done, open).value, from, Names(requests))
    decreases requests
  {
    if requests != [] {
      var last := |requests| - 1;
      MergeWalksAll(requests[..last], from, done, open, deps);
      MergeMakesAll(requests[..last], from, done, open, deps);
      MergeWalks(requests[last], from, done, open, deps);
      MergeMakes(requests[last], from, done, open, deps);
      NamesSnoc(requests);
    }
  }

  lemma {:induction false} WalkMakes(request: Request, from: Name, done: set<Name>, open: set<Name>, deps: Deps)
    requires Settles(deps, done) && done !! open && Agrees(request, open, deps)
    requires Walk(request, from, done, open).Some?
    ensures Makes(deps, done, Walk(request, from, done, open).value, from, {request.name})
    decreases request, 0
  {
    var name := request.name;
    if name in done {
      MergeMakes(request, from, done, open, deps);
    } else {
      WalkAllMakes(request.deps, name, done, open + {name}, deps);
    }
  }

  lemma {:induction false} WalkAllMakes(requests: seq<Request>, from: Name, done: set<Name>, open: set<Name>,
                                        deps: Deps)
    requires Settles(deps, done) && done !! open && WalkAll(requests, from, done, open).Some?
    requires forall i :: 0 <= i < |requests| ==> Agrees(requests[i], open, deps)
    ensures Makes(deps, done, WalkAll(requests, from, done, open).value, from, Names(requests))
    decreases requests
  {
    if requests != [] {
      var last := |requests| - 1;
      var rest, walk := requests[..last], WalkAll(requests[..last], from, done, open);
      WalkAllMakes(rest, from, done, open, deps);
      WalkAllSettles(rest, from, done, open, deps);
      WalkMakes(requests[last], from, walk.value.done, open, deps);
      WalkSettles(requests[last], from, walk.value.done, open, deps);
      NamesSnoc(requests);
    }
  }

  // Where requests agree, what is requested is what they say: by the program the list, by each component its
  // dependencies.
  lemma WalkOfAgreed(requests: seq<Request>, deps: Deps, trip: Trip)
    requires forall i :: 0 <= i < |requests| ==> Named(requests[i]) && Agrees(requests[i], {}, deps)
    requires WalkOf(requests) == Some(trip)
    ensures Names(requests) <= trip.done && MAIN !in trip.done
    ensures forall y :: trip.made[(MAIN, y)] == Asks(requests, y)
    ensures forall x, y :: x in trip.done ==> (trip.made[(x, y)] > 0 <==> y in deps(x))
  {
    assert Settles(deps, {});
    WalkAllSettles(requests, MAIN, {}, {}, deps);
    WalkAllMakes(requests, MAIN, {}, {}, deps);
    ListIsNotMain(requests, MAIN, {}, {});
  }
}
