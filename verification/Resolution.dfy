/**
 Resolving the dependencies that components request (util/component/interface.go, resolveRequest): every request the
 walk makes is counted at both of its ends, and no other.
 */
module Resolution {
  import opened Common
  import opened Toposort
  import opened RequestWalk

  function Count(m: map<Name, nat>, k: Name): nat {
    if k in m then m[k] else 0
  }

  function Increment(m: map<Name, nat>, k: Name): (r: map<Name, nat>)
    ensures forall x :: Count(r, x) == Count(m, x) + if x == k then 1 else 0
  {
    m[k := Count(m, k) + 1]
  }

  ghost predicate Positive(m: map<Name, nat>) {
    forall k :: k in m ==> m[k] > 0
  }

  // None is an entry whose component is still being resolved; `open` has what it requested so far.
  type Resolving = map<Name, Option<Entry>>

  predicate Done(entries: Resolving, x: Name) {
    x in entries && entries[x].Some?
  }

  function Asked(entries: Resolving, open: map<Name, map<Name, nat>>, x: Name, y: Name): nat {
    if Done(entries, x) then Count(entries[x].value.deps, y)
    else if x in open then Count(open[x], y)
    else 0
  }

  function Heard(entries: Resolving, x: Name, y: Name): nat {
    if Done(entries, y) then Count(entries[y].value.requesters, x) else 0
  }

  // The two ends of every edge agree, but for one request from `from` to `to` that only the latter has counted.
  ghost predicate Balanced(entries: Resolving, open: map<Name, map<Name, nat>>, from: Name, to: Name) {
    forall x, y :: x != MAIN ==>
      Heard(entries, x, y) == Asked(entries, open, x, y) + if x == from && y == to then 1 else 0
  }

  ghost predicate AllPositive(entries: Resolving) {
    forall x :: Done(entries, x) ==> Positive(entries[x].value.requesters) && Positive(entries[x].value.deps)
  }

  ghost predicate Opens(entries: Resolving, open: map<Name, map<Name, nat>>) {
    && MAIN !in entries
    && forall x :: x in open <==> x in entries && entries[x] == None
  }

  // Components resolved or being resolved remain so.
  ghost predicate Grows(before: Resolving, after: Resolving) {
    && (forall x :: x in before ==> x in after && (Done(before, x) <==> Done(after, x)))
    && (forall x :: x in after && x !in before ==> Done(after, x))
  }

  // Nothing is left uncounted, that is, the extra request of Balanced is from nobody.
  ghost predicate Settled(entries: Resolving, open: map<Name, map<Name, nat>>) {
    Balanced(entries, open, MAIN, MAIN) && AllPositive(entries) && Opens(entries, open)
  }

  ghost predicate Unsettled(entries: Resolving, open: map<Name, map<Name, nat>>, from: Name, to: Name) {
    Balanced(entries, open, from, to) && AllPositive(entries) && Opens(entries, open) && Done(entries, to)
  }

  lemma StartResolving(entries: Resolving, open: map<Name, map<Name, nat>>, name: Name)
    requires Settled(entries, open) && name !in entries && name != MAIN
    ensures Settled(entries[name := None], open[name := map[]])
  {
    var entries', open' := entries[name := None], open[name := map[]];
    forall x, y | x != MAIN ensures Heard(entries', x, y) == Asked(entries', open', x, y) {
      assert Heard(entries, x, y) == Asked(entries, open, x, y);
    }
  }

  lemma CountTimes(entries: Resolving, open: map<Name, map<Name, nat>>, name: Name, dep: Name)
    requires Unsettled(entries, open, name, dep) && name in open
    ensures Settled(entries, open[name := Increment(open[name], dep)])
  {
    var open' := open[name := Increment(open[name], dep)];
    forall x, y | x != MAIN ensures Heard(entries, x, y) == Asked(entries, open', x, y) {
      assert Heard(entries, x, y) == Asked(entries, open, x, y) + if x == name && y == dep then 1 else 0;
    }
  }

  lemma FinishResolving(entries: Resolving, open: map<Name, map<Name, nat>>, name: Name, requester: Name,
                        times: map<Name, nat>)
    requires Settled(entries, open[name := times]) && Positive(times) && requester != name && name !in open
    ensures Unsettled(entries[name := Some(Entry(map[requester := 1], times))], open, requester, name)
  {
    var entries' := entries[name := Some(Entry(map[requester := 1], times))];
    assert Opens(entries, open[name := times]) && entries[name] == None;
    assert Opens(entries', open);
    assert Positive(map[requester := 1]);
    hide Positive, Opens;
    forall x, y | x != MAIN
      ensures Heard(entries', x, y) == Asked(entries', open, x, y) + if x == requester && y == name then 1 else 0
    {
      assert Heard(entries, x, y) == Asked(entries, open[name := times], x, y);
    }
  }

  lemma MergeDep(entries: Resolving, open: map<Name, map<Name, nat>>, name: Name, dep: Name)
    requires Unsettled(entries, open, name, dep) && Done(entries, name)
    ensures Settled(WithDep(entries, name, dep), open)
  {
    var entries' := WithDep(entries, name, dep);
    assert Positive(entries'[name].value.deps) && Opens(entries', open);
    hide Positive, Opens;
    forall x, y | x != MAIN ensures Heard(entries', x, y) == Asked(entries', open, x, y) {
      assert Heard(entries, x, y) == Asked(entries, open, x, y) + if x == name && y == dep then 1 else 0;
    }
  }

  lemma MergeRequester(entries: Resolving, open: map<Name, map<Name, nat>>, name: Name, requester: Name)
    requires Settled(entries, open) && Done(entries, name)
    ensures Unsettled(WithRequester(entries, name, requester), open, requester, name)
  {
    var entries' := WithRequester(entries, name, requester);
    assert Positive(entries'[name].value.requesters) && Opens(entries', open);
    hide Positive, Opens;
    forall x, y | x != MAIN
      ensures Heard(entries', x, y) == Asked(entries', open, x, y) + if x == requester && y == name then 1 else 0
    {
      assert Heard(entries, x, y) == Asked(entries, open, x, y);
    }
  }

  function WithDep(entries: Resolving, name: Name, dep: Name): (r: Resolving)
    requires Done(entries, name)
    ensures Grows(entries, r)
  {
    var e := entries[name].value;
    entries[name := Some(e.(deps := Increment(e.deps, dep)))]
  }

  function WithRequester(entries: Resolving, name: Name, requester: Name): (r: Resolving)
    requires Done(entries, name)
    ensures Grows(entries, r)
  {
    var e := entries[name].value;
    entries[name := Some(e.(requesters := Increment(e.requesters, requester)))]
  }

  ghost function DoneNames(entries: Resolving): set<Name> {
    set x | x in entries && entries[x].Some?
  }

  // The requests made in between are counted at the components they are for.
  ghost predicate HeardMore(before: Resolving, after: Resolving, made: multiset<(Name, Name)>) {
    forall x, y :: Heard(after, x, y) == Heard(before, x, y) + made[(x, y)]
  }

  lemma HeardTwice(a: Resolving, b: Resolving, c: Resolving, m: multiset<(Name, Name)>, n: multiset<(Name, Name)>)
    requires HeardMore(a, b, m) && HeardMore(b, c, n)
    ensures HeardMore(a, c, m + n)
  {
    hide Heard;
    forall x, y ensures Heard(c, x, y) == Heard(a, x, y) + (m + n)[(x, y)] {
      assert Heard(b, x, y) == Heard(a, x, y) + m[(x, y)] && Heard(c, x, y) == Heard(b, x, y) + n[(x, y)];
    }
  }

  // The walk says whether resolution panics; when it does not, what is resolved, and which requests are newly counted.
  ghost predicate Follows(walk: Option<Trip>, before: Resolving, after: Resolving, panicked: bool) {
    if panicked then walk == None
    else walk.Some? && DoneNames(after) == walk.value.done && HeardMore(before, after, walk.value.made)
  }

  lemma WalkOwn(request: Request, from: Name, done: set<Name>, open: set<Name>)
    requires request.name !in open
    ensures var name := request.name;
      Walk(request, from, done, open) ==
        Own(if name in done then WalkAll(request.mergeDeps, name, done, open)
            else WalkAll(request.deps, name, done, open + {name}), from, name)
  {
  }

  // Before and after the requests of a component that is merged.
  lemma MergeEnds(request: Request, requester: Name, open: map<Name, map<Name, nat>>, a: Resolving, b: Resolving)
    requires Settled(a, open) && Done(a, request.name) && Settled(b, open) && Grows(a, b)
    requires Follows(WalkAll(request.mergeDeps, request.name, DoneNames(a), open.Keys), a, b, false)
    ensures Done(b, request.name)
    ensures var c := WithRequester(b, request.name, requester);
      && Follows(Walk(request, requester, DoneNames(a), open.Keys), a, c, false)
      && Unsettled(c, open, requester, request.name) && Grows(a, c)
  {
    var name := request.name;
    assert name !in open && name in DoneNames(a) && HeardMore(a, a, multiset{}) && Done(b, name);
    GrowsTwice(a, b, WithRequester(b, name, requester));
    hide Settled, Unsettled, Grows, DoneNames, HeardMore, Follows, WalkAll, Walk;
    WalkOwn(request, requester, DoneNames(a), open.Keys);
    MergeRequester(b, open, name, requester);
    Counted(b, name, requester);
    FollowsOwn(WalkAll(request.mergeDeps, name, DoneNames(a), open.Keys), a, a, b, WithRequester(b, name, requester),
               requester, name);
  }

  lemma MergePanics(request: Request, requester: Name, open: map<Name, map<Name, nat>>, b: Resolving, a: Resolving)
    requires Settled(a, open) && Done(a, request.name)
    requires Follows(WalkAll(request.mergeDeps, request.name, DoneNames(a), open.Keys), a, b, true)
    ensures Follows(Walk(request, requester, DoneNames(a), open.Keys), a, b, true)
  {
    assert request.name !in open && request.name in DoneNames(a);
    WalkOwn(request, requester, DoneNames(a), open.Keys);
  }

  // Before and after the requests of a component that is new.
  lemma CreateStarts(request: Request, requester: Name, open: map<Name, map<Name, nat>>, a: Resolving)
    requires Settled(a, open) && Named(request) && request.name !in a
    ensures var name := request.name;
      && Settled(a[name := None], open[name := map[]]) && DoneNames(a[name := None]) == DoneNames(a)
      && Walk(request, requester, DoneNames(a), open.Keys) ==
        Own(WalkAll(request.deps, name, DoneNames(a), open.Keys + {name}), requester, name)
  {
    var name := request.name;
    assert name !in open && name !in DoneNames(a) && !Done(a, name) && name != MAIN;
    hide Settled, DoneNames, HeardMore, WalkAll, Walk;
    StartResolving(a, open, name);
    Entered(a, name, requester, map[]);
    WalkOwn(request, requester, DoneNames(a), open.Keys);
  }

  lemma CreateEnds(request: Request, requester: Name, open: map<Name, map<Name, nat>>, a: Resolving, c: Resolving,
                   times: map<Name, nat>)
    requires Settled(a, open) && Named(request) && request.name !in a && (requester == MAIN || requester in a)
    requires Settled(c, open[request.name := times]) && Positive(times) && Grows(a[request.name := None], c)
    requires Follows(WalkAll(request.deps, request.name, DoneNames(a), open.Keys + {request.name}),
                     a[request.name := None], c, false)
    ensures var d := c[request.name := Some(Entry(map[requester := 1], times))];
      && Follows(Walk(request, requester, DoneNames(a), open.Keys), a, d, false)
      && Unsettled(d, open, requester, request.name) && Grows(a, d)
  {
    var name, b := request.name, a[request.name := None];
    var d := c[name := Some(Entry(map[requester := 1], times))];
    assert name !in open && requester != name && name != MAIN && !Done(a, name) && !Done(c, name) && Grows(a, d);
    CreateStarts(request, requester, open, a);
    hide Settled, Unsettled, Grows, DoneNames, HeardMore, Follows, WalkAll, Walk;
    Entered(a, name, requester, map[]);
    Entered(c, name, requester, times);
    FinishResolving(c, open, name, requester, times);
    FollowsOwn(WalkAll(request.deps, name, DoneNames(a), open.Keys + {name}), a, b, c, d, requester, name);
  }

  // One more request of a list is resolved.
  lemma FollowsNext(requests: seq<Request>, i: nat, from: Name, open: set<Name>, a: Resolving, b: Resolving,
                    c: Resolving,
                    panicked: bool)
    requires i < |requests| && Follows(WalkAll(requests[..i], from, DoneNames(a), open), a, b, false)
    requires Follows(Walk(requests[i], from, DoneNames(b), open), b, c, panicked)
    ensures Follows(WalkAll(requests[..i + 1], from, DoneNames(a), open), a, c, panicked)
    ensures panicked ==> WalkAll(requests, from, DoneNames(a), open) == None
  {
    WalkNext(requests, i, from, DoneNames(a), open);
    if !panicked {
      var t := WalkAll(requests[..i], from, DoneNames(a), open).value;
      var u := Walk(requests[i], from, DoneNames(b), open).value;
      HeardTwice(a, b, c, t.made, u.made);
    }
    hide WalkAll, Walk, HeardMore, DoneNames;
  }

  // A component that is being resolved is not counted yet; when it is resolved the request for it is.
  lemma Entered(entries: Resolving, name: Name, requester: Name, times: map<Name, nat>)
    requires !Done(entries, name)
    ensures DoneNames(entries[name := None]) == DoneNames(entries)
    ensures HeardMore(entries, entries[name := None], multiset{})
    ensures var after := entries[name := Some(Entry(map[requester := 1], times))];
      DoneNames(after) == DoneNames(entries) + {name} && HeardMore(entries, after, multiset{(requester, name)})
  {
  }

  lemma Counted(entries: Resolving, name: Name, other: Name)
    requires Done(entries, name)
    ensures DoneNames(WithRequester(entries, name, other)) == DoneNames(entries) + {name}
    ensures HeardMore(entries, WithRequester(entries, name, other), multiset{(other, name)})
    ensures DoneNames(WithDep(entries, name, other)) == DoneNames(entries)
    ensures HeardMore(entries, WithDep(entries, name, other), multiset{})
  {
  }

  lemma FollowsUncounted(walk: Option<Trip>, a: Resolving, b: Resolving, c: Resolving)
    requires Follows(walk, a, b, false) && HeardMore(b, c, multiset{}) && DoneNames(c) == DoneNames(b)
    ensures Follows(walk, a, c, false)
  {
    HeardTwice(a, b, c, walk.value.made, multiset{});
    assert walk.value.made + multiset{} == walk.value.made;
  }

  // The request for a component comes after those that the component makes.
  lemma FollowsOwn(walk: Option<Trip>, a: Resolving, b: Resolving, c: Resolving, d: Resolving, from: Name, name: Name)
    requires HeardMore(a, b, multiset{}) && Follows(walk, b, c, false) && HeardMore(c, d, multiset{(from, name)})
    requires DoneNames(d) == DoneNames(c) + {name}
    ensures Follows(Own(walk, from, name), a, d, false)
  {
    HeardTwice(a, b, c, multiset{}, walk.value.made);
    HeardTwice(a, c, d, multiset{} + walk.value.made, multiset{(from, name)});
    assert multiset{} + walk.value.made + multiset{(from, name)} == walk.value.made + multiset{(from, name)};
  }

  lemma GrowsTwice(a: Resolving, b: Resolving, c: Resolving)
    requires Grows(a, b) && Grows(b, c)
    ensures Grows(a, c)
  {
  }

  class Resolver {
    var entries: Resolving

    constructor ()
      ensures entries == map[] && Settled(entries, map[])
    {
      entries := map[];
    }

    // `panicked` is the panic about a cyclic dependency. Otherwise the component is there, and the request is
    // counted at its end; its requester counts it next.
    method ResolveRequest(request: Request, requester: Name, ghost open: map<Name, map<Name, nat>>)
      returns (panicked: bool)
      requires Settled(entries, open) && Named(request) && (requester == MAIN || requester in entries)
      modifies this
      ensures Follows(Walk(request, requester, DoneNames(old(entries)), open.Keys), old(entries), entries, panicked)
      ensures !panicked ==> Unsettled(entries, open, requester, request.name) && Grows(old(entries), entries)
      decreases request, 1
    {
      var name := request.name;
      assert name in open <==> name in entries && entries[name] == None;
      assert name in DoneNames(entries) <==> Done(entries, name);
      hide DoneNames, Settled, Unsettled, WalkAll;
      if name in entries {
        if entries[name] == None {
          return true;
        }
        panicked := Merge(request, requester, open);
      } else {
        panicked := Create(request, requester, open);
      }
    }

    // Resolves what the request adds to a component that exists.
    method Merge(request: Request, requester: Name, ghost open: map<Name, map<Name, nat>>) returns (panicked: bool)
      requires Settled(entries, open) && Named(request) && Done(entries, request.name)
      modifies this
      ensures Follows(Walk(request, requester, DoneNames(old(entries)), open.Keys), old(entries), entries, panicked)
      ensures !panicked ==> Unsettled(entries, open, requester, request.name) && Grows(old(entries), entries)
      decreases request, 0, 1
    {
      hide *;
      panicked := MergeDeps(request, open);
      if panicked {
        MergePanics(request, requester, open, entries, old(entries));
      } else {
        MergeEnds(request, requester, open, old(entries), entries);
        entries := WithRequester(entries, request.name, requester);
      }
    }

    // Resolves a new component.
    method Create(request: Request, requester: Name, ghost open: map<Name, map<Name, nat>>) returns (panicked: bool)
      requires Settled(entries, open) && Named(request) && (requester == MAIN || requester in entries)
      requires request.name !in entries
      modifies this
      ensures Follows(Walk(request, requester, DoneNames(old(entries)), open.Keys), old(entries), entries, panicked)
      ensures !panicked ==> Unsettled(entries, open, requester, request.name) && Grows(old(entries), entries)
      decreases request, 0, 1
    {
      var name := request.name;
      CreateStarts(request, requester, open, entries);
      hide *;
      entries := entries[name := None];
      var times;
      panicked, times := ResolveDeps(request, open);
      if !panicked {
        CreateEnds(request, requester, open, old(entries), entries, times);
        entries := entries[name := Some(Entry(map[requester := 1], times))];
      }
    }

    method ResolveDeps(request: Request, ghost open: map<Name, map<Name, nat>>)
      returns (panicked: bool, times: map<Name, nat>)
      requires Settled(entries, open[request.name := map[]]) && Named(request) && request.name in entries
      modifies this
      ensures Follows(WalkAll(request.deps, request.name, DoneNames(old(entries)), open.Keys + {request.name}),
                      old(entries), entries, panicked)
      ensures !panicked ==>
        Settled(entries, open[request.name := times]) && Positive(times) && Grows(old(entries), entries)
      decreases request, 0, 0
    {
      var name := request.name;
      panicked, times := false, map[];
      for i := 0 to |request.deps|
        invariant Settled(entries, open[name := times]) && Positive(times) && !panicked
        invariant name in entries && Grows(old(entries), entries)
        invariant Follows(WalkAll(request.deps[..i], name, DoneNames(old(entries)), open.Keys + {name}),
                          old(entries), entries, false)
      {
        ghost var before := entries;
        assert open[name := times].Keys == open.Keys + {name};
        hide *;
        panicked, times := ResolveOne(name, request.deps[i], open, times);
        FollowsNext(request.deps, i, name, open.Keys + {name}, old(entries), before, entries, panicked);
        if panicked {
          return;
        }
        GrowsTwice(old(entries), before, entries);
      }
      assert request.deps[..|request.deps|] == request.deps;
    }

    method ResolveOne(name: Name, dep: Request, ghost open: map<Name, map<Name, nat>>, times: map<Name, nat>)
      returns (panicked: bool, times': map<Name, nat>)
      requires Settled(entries, open[name := times]) && Positive(times) && Named(dep) && name in entries
      modifies this
      ensures Follows(Walk(dep, name, DoneNames(old(entries)), open[name := times].Keys),
                      old(entries), entries, panicked)
      ensures !panicked ==> Settled(entries, open[name := times']) && Positive(times')
      ensures !panicked ==> name in entries && Grows(old(entries), entries)
      decreases dep, 2
    {
      hide Settled, Unsettled;
      panicked := ResolveRequest(dep, name, open[name := times]);
      times' := Increment(times, dep.name);
      if !panicked {
        CountTimes(entries, open[name := times], name, dep.name);
        assert open[name := times][name := times'] == open[name := times'];
      }
    }

    method MergeDeps(request: Request, ghost open: map<Name, map<Name, nat>>) returns (panicked: bool)
      requires Settled(entries, open) && Named(request) && Done(entries, request.name)
      modifies this
      ensures Follows(WalkAll(request.mergeDeps, request.name, DoneNames(old(entries)), open.Keys),
                      old(entries), entries, panicked)
      ensures !panicked ==> Settled(entries, open) && Grows(old(entries), entries)
      decreases request, 0, 0
    {
      panicked := false;
      for i := 0 to |request.mergeDeps|
        invariant Settled(entries, open) && Grows(old(entries), entries) && !panicked
        invariant Follows(WalkAll(request.mergeDeps[..i], request.name, DoneNames(old(entries)), open.Keys),
                          old(entries), entries, false)
      {
        ghost var before := entries;
        hide Follows, WalkAll, Walk, DoneNames, Settled;
        panicked := MergeOne(request.name, request.mergeDeps[i], open);
        FollowsNext(request.mergeDeps, i, request.name, open.Keys, old(entries), before, entries, panicked);
        if panicked {
          return;
        }
      }
      assert request.mergeDeps[..|request.mergeDeps|] == request.mergeDeps;
    }

    method MergeOne(name: Name, dep: Request, ghost open: map<Name, map<Name, nat>>) returns (panicked: bool)
      requires Settled(entries, open) && Named(dep) && Done(entries, name)
      modifies this
      ensures Follows(Walk(dep, name, DoneNames(old(entries)), open.Keys), old(entries), entries, panicked)
      ensures !panicked ==> Settled(entries, open) && Grows(old(entries), entries)
      decreases dep, 2
    {
      hide Settled, Unsettled;
      panicked := ResolveRequest(dep, name, open);
      if !panicked {
        MergeDep(entries, open, name, dep.name);
        Counted(entries, name, dep.name);
        ghost var middle := entries;
        entries := WithDep(entries, name, dep.name);
        FollowsUncounted(Walk(dep, name, DoneNames(old(entries)), open.Keys), old(entries), middle, entries);
      }
    }

    // The requests of the program.
    method ResolveList(requests: seq<Request>) returns (panicked: bool)
      requires entries == map[] && forall i :: 0 <= i < |requests| ==> Named(requests[i])
      modifies this
      ensures Follows(WalkOf(requests), map[], entries, panicked)
      ensures !panicked ==> Settled(entries, map[])
      ensures !panicked ==> forall i :: 0 <= i < |requests| ==> Done(entries, requests[i].name)
    {
      panicked := false;
      ghost var none: map<Name, map<Name, nat>> := map[];
      assert none.Keys == {} && DoneNames(entries) == {} && requests[..0] == [];
      assert Settled(entries, map[]) && WalkAll([], MAIN, {}, {}) == Some(Trip({}, multiset{}));
      hide Settled, Unsettled, DoneNames, WalkAll, Walk;
      for i := 0 to |requests|
        invariant Settled(entries, map[]) && !panicked
        invariant Follows(WalkAll(requests[..i], MAIN, {}, {}), map[], entries, false)
        invariant forall j :: 0 <= j < i ==> Done(entries, requests[j].name)
      {
        ghost var before := entries;
        panicked := ResolveRequest(requests[i], MAIN, none);
        FollowsNext(requests, i, MAIN, {}, map[], before, entries, panicked);
        if panicked {
          return;
        }
        SettledByMain(entries, map[], requests[i].name);
      }
      assert requests[..|requests|] == requests;
    }
  }

  lemma SettledByMain(entries: Resolving, open: map<Name, map<Name, nat>>, to: Name)
    requires Unsettled(entries, open, MAIN, to)
    ensures Settled(entries, open) && Done(entries, to)
  {
  }

  // ----- the result -----

  function Resolved(entries: Resolving): Entries
    requires forall x :: x in entries ==> entries[x].Some?
  {
    map x | x in entries :: entries[x].value
  }

  // The two ends of every edge agree, every component requested is there, and no count is zero.
  ghost predicate Synced(entries: Entries) {
    && MAIN !in entries
    && (forall x :: x in entries ==> Positive(entries[x].deps) && Positive(entries[x].requesters))
    && (forall x, y :: x in entries && y in entries[x].deps ==> y in entries)
    && (forall x, y :: y in entries && x in entries[y].requesters ==> x == MAIN || x in entries)
    && (forall x, y :: x in entries && y in entries ==> InSync(entries, x, y))
  }

  ghost predicate InSync(entries: Entries, x: Name, y: Name)
    requires x in entries && y in entries
  {
    Count(entries[x].deps, y) == Count(entries[y].requesters, x)
  }

  // What the requests of a walk amount to: how often each component was requested by whom.
  ghost function Graph(trip: Trip): Entries {
    map x | x in trip.done :: Entry(Requesters(trip, x), Dependencies(trip, x))
  }

  ghost function Requesters(trip: Trip, x: Name): map<Name, nat> {
    map y | y in trip.done + {MAIN} && trip.made[(y, x)] > 0 :: trip.made[(y, x)]
  }

  ghost function Dependencies(trip: Trip, x: Name): map<Name, nat> {
    map y | y in trip.done && trip.made[(x, y)] > 0 :: trip.made[(x, y)]
  }

  // What resolution leaves agrees in both directions.
  lemma ResolvedIsSynced(entries: Resolving)
    requires Settled(entries, map[])
    ensures forall x :: x in entries ==> entries[x].Some?
    ensures Synced(Resolved(entries)) && Closed(Resolved(entries))
  {
    forall x, y | x != MAIN ensures Heard(entries, x, y) == Asked(entries, map[], x, y) {}
    var e := Resolved(entries);
    forall x, y | x in e && y in e[x].deps ensures y in e {
      assert Heard(entries, x, y) == Asked(entries, map[], x, y) > 0;
    }
    forall x, y | y in e && x in e[y].requesters ensures x == MAIN || x in e {
      if x != MAIN { assert Asked(entries, map[], x, y) == Heard(entries, x, y) > 0; }
    }
    forall x, y | x in e && y in e ensures InSync(e, x, y) {
      assert Heard(entries, x, y) == Asked(entries, map[], x, y);
    }
  }

  lemma AreRequesters(trip: Trip, x: Name, m: map<Name, nat>)
    requires Positive(m) && m.Keys <= trip.done + {MAIN} && forall y :: Count(m, y) == trip.made[(y, x)]
    ensures m == Requesters(trip, x)
  {
    forall y ensures y in m <==> y in Requesters(trip, x) { assert Count(m, y) == trip.made[(y, x)]; }
    forall y | y in m ensures m[y] == Requesters(trip, x)[y] { assert Count(m, y) == trip.made[(y, x)]; }
  }

  lemma AreDependencies(trip: Trip, x: Name, m: map<Name, nat>)
    requires Positive(m) && m.Keys <= trip.done && forall y :: y in trip.done ==> Count(m, y) == trip.made[(x, y)]
    ensures m == Dependencies(trip, x)
  {
    forall y ensures y in m <==> y in Dependencies(trip, x) {
      if y in trip.done { assert Count(m, y) == trip.made[(x, y)]; }
    }
    forall y | y in m ensures m[y] == Dependencies(trip, x)[y] { assert Count(m, y) == trip.made[(x, y)]; }
  }

  // And it is exactly what the walk requested.
  lemma ResolvedIsGraph(entries: Resolving, trip: Trip)
    requires Settled(entries, map[]) && Follows(Some(trip), map[], entries, false)
    ensures forall x :: x in entries ==> entries[x].Some?
    ensures Resolved(entries) == Graph(trip) && Synced(Graph(trip)) && Closed(Graph(trip))
  {
    ResolvedIsSynced(entries);
    forall x, y ensures Heard(entries, x, y) == trip.made[(x, y)] { assert Heard(map[], x, y) == 0; }
    assert Resolved(entries).Keys == entries.Keys == trip.done;
    hide Settled, HeardMore, Follows, Graph;
    forall x | x in entries ensures Resolved(entries)[x] == Entry(Requesters(trip, x), Dependencies(trip, x)) {
      EntryIsCounted(entries, trip, x);
    }
    GraphIs(Resolved(entries), trip);
  }

  lemma GraphIs(e: Entries, trip: Trip)
    requires e.Keys == trip.done && forall x :: x in e ==> e[x] == Entry(Requesters(trip, x), Dependencies(trip, x))
    ensures e == Graph(trip)
  {
  }

  lemma EntryIsCounted(entries: Resolving, trip: Trip, x: Name)
    requires (forall y :: y in entries ==> entries[y].Some?) && Synced(Resolved(entries)) && x in entries
    requires entries.Keys == trip.done && forall y, z :: Heard(entries, y, z) == trip.made[(y, z)]
    ensures Resolved(entries)[x] == Entry(Requesters(trip, x), Dependencies(trip, x))
  {
    var e := Resolved(entries);
    forall y ensures Count(e[x].requesters, y) == trip.made[(y, x)] {
      assert Heard(entries, y, x) == trip.made[(y, x)];
    }
    forall y | y in trip.done ensures Count(e[x].deps, y) == trip.made[(x, y)] {
      assert InSync(e, x, y) && Heard(entries, x, y) == trip.made[(x, y)];
    }
    forall y | y in e[x].requesters ensures y in trip.done + {MAIN} { assert y == MAIN || y in e; }
    forall y | y in e[x].deps ensures y in trip.done { assert y in e; }
    AreRequesters(trip, x, e[x].requesters);
    AreDependencies(trip, x, e[x].deps);
  }
}
