/**
 Disabling the components nobody needs (util/component/interface.go, TrimNonRequested): what remains is what the
 program still reaches.
 */
module Trimming {
  import opened Common
  import opened Toposort
  import opened RequestWalk
  import opened Resolution

  // Counts after one request for `dep` by `x` is withdrawn.
  function Decrement(m: map<Name, nat>, k: Name): (r: map<Name, nat>)
    requires Count(m, k) > 0
    ensures forall x :: Count(r, x) == Count(m, x) - if x == k then 1 else 0
  {
    if m[k] == 1 then m - {k} else m[k := m[k] - 1]
  }

  datatype Outcome = Trimmed | OutOfSync | NotRequested

  // What a component asks to withdraw, and whether the program still wants it by itself.
  datatype Config = Config(fromMain: set<Name>, unrequest: map<Name, seq<Name>>)
  {
    function Unrequests(x: Name): seq<Name> {
      if x in unrequest then unrequest[x] else []
    }
  }

  // ----- the meaning -----

  // How often x still requests y.
  function Remaining(entries: Entries, config: Config, x: Name, y: Name): int
    requires x in entries
  {
    Count(entries[x].deps, y) - multiset(config.Unrequests(x))[y]
  }

  // No component withdraws a request more often than it made it.
  ghost predicate Valid(entries: Entries, config: Config) {
    forall x :: x in entries ==> ValidFor(entries, config, x)
  }

  ghost predicate ValidFor(entries: Entries, config: Config, x: Name)
    requires x in entries
  {
    forall y :: Remaining(entries, config, x, y) >= 0
  }

  predicate Wanted(entries: Entries, config: Config, x: Name) {
    x in entries && MAIN in entries[x].requesters && x in config.fromMain
  }

  // A chain of requests that remain, from a component the program wants.
  ghost predicate Chain(entries: Entries, config: Config, path: seq<Name>) {
    && path != [] && Wanted(entries, config, path[0])
    && forall i :: 0 <= i < |path| - 1 ==> Requests(entries, config, path[i], path[i + 1])
  }

  predicate Requests(entries: Entries, config: Config, x: Name, y: Name) {
    x in entries && y in entries && Remaining(entries, config, x, y) > 0
  }

  ghost predicate Reached(entries: Entries, config: Config, x: Name) {
    exists path :: Chain(entries, config, path) && path[|path| - 1] == x
  }

  // ----- withdrawing requests -----

  // Both ends of one request are taken back.
  function Withdraw(entries: Entries, x: Name, dep: Name): Entries
    requires x in entries && dep in entries
    requires Count(entries[x].deps, dep) > 0 && Count(entries[dep].requesters, x) > 0
  {
    var entries' := entries[x := entries[x].(deps := Decrement(entries[x].deps, dep))];
    entries'[dep := entries'[dep].(requesters := Decrement(entries'[dep].requesters, x))]
  }

  ghost predicate CanWithdraw(entries: Entries, x: Name, dep: Name) {
    && x in entries && dep in entries
    && Count(entries[x].deps, dep) > 0 && Count(entries[dep].requesters, x) > 0
  }

  lemma WithdrawCounts(entries: Entries, x: Name, dep: Name, a: Name, b: Name)
    requires CanWithdraw(entries, x, dep) && a in entries && b in entries
    ensures a in Withdraw(entries, x, dep) && b in Withdraw(entries, x, dep)
    ensures Count(Withdraw(entries, x, dep)[a].deps, b) ==
      Count(entries[a].deps, b) - if a == x && b == dep then 1 else 0
    ensures Count(Withdraw(entries, x, dep)[b].requesters, a) ==
      Count(entries[b].requesters, a) - if a == x && b == dep then 1 else 0
  {
  }

  // The maps only lose keys and stay positive.
  lemma WithdrawShrinks(entries: Entries, x: Name, dep: Name, a: Name)
    requires CanWithdraw(entries, x, dep) && a in entries
    requires Positive(entries[a].deps) && Positive(entries[a].requesters)
    ensures a in Withdraw(entries, x, dep)
    ensures Positive(Withdraw(entries, x, dep)[a].deps) && Positive(Withdraw(entries, x, dep)[a].requesters)
    ensures Withdraw(entries, x, dep)[a].deps.Keys <= entries[a].deps.Keys
    ensures Withdraw(entries, x, dep)[a].requesters.Keys <= entries[a].requesters.Keys
    ensures x != MAIN ==> SameMain(entries, Withdraw(entries, x, dep), a)
    ensures a != x ==> Withdraw(entries, x, dep)[a].deps == entries[a].deps
  {
  }

  lemma WithdrawKeepsSync(entries: Entries, x: Name, dep: Name)
    requires Synced(entries) && CanWithdraw(entries, x, dep)
    ensures Synced(Withdraw(entries, x, dep))
    ensures OtherDepsKept(entries, Withdraw(entries, x, dep), x)
    ensures forall y ::
      Count(Withdraw(entries, x, dep)[x].deps, y) == Count(entries[x].deps, y) - if y == dep then 1 else 0
    ensures forall y :: y in entries ==> SameMain(entries, Withdraw(entries, x, dep), y)
  {
    var after := Withdraw(entries, x, dep);
    assert after.Keys == entries.Keys;
    assert after[x].deps == Decrement(entries[x].deps, dep);
    forall a | a in entries
      ensures Positive(after[a].deps) && Positive(after[a].requesters)
      ensures after[a].deps.Keys <= entries[a].deps.Keys && after[a].requesters.Keys <= entries[a].requesters.Keys
      ensures SameMain(entries, after, a) && (a != x ==> after[a].deps == entries[a].deps)
    {
      WithdrawShrinks(entries, x, dep, a);
    }
    hide Withdraw, Count, Decrement, Positive;
    forall a, b | a in after && b in after ensures InSync(after, a, b) {
      assert InSync(entries, a, b);
      WithdrawCounts(entries, x, dep, a, b);
    }
  }

  ghost predicate OtherDepsKept(before: Entries, after: Entries, x: Name) {
    after.Keys == before.Keys && forall z :: z in before && z != x ==> after[z].deps == before[z].deps
  }

  predicate SameMain(before: Entries, after: Entries, y: Name)
    requires y in before
  {
    y in after && (MAIN in after[y].requesters <==> MAIN in before[y].requesters)
  }

  lemma DropMainKeepsSync(entries: Entries, x: Name)
    requires Synced(entries) && x in entries
    ensures Synced(entries[x := entries[x].(requesters := entries[x].requesters - {MAIN})])
  {
    var after := entries[x := entries[x].(requesters := entries[x].requesters - {MAIN})];
    forall a, b | a in after && b in after ensures InSync(after, a, b) {
      assert InSync(entries, a, b) && a != MAIN;
    }
  }

  // What x requests after it withdrew a list.
  ghost predicate Less(before: Entries, after: Entries, x: Name, list: seq<Name>)
    requires x in before && x in after
  {
    forall y :: Count(after[x].deps, y) == Count(before[x].deps, y) - multiset(list)[y]
  }

  // Component x has been processed, or not yet.
  ghost predicate Processed(was: Entries, entries: Entries, config: Config, x: Name)
    requires x in was && x in entries
  {
    && Less(was, entries, x, config.Unrequests(x))
    && (MAIN in entries[x].requesters <==> MAIN in was[x].requesters && x in config.fromMain)
  }

  ghost predicate Untouched(was: Entries, entries: Entries, x: Name)
    requires x in was && x in entries
  {
    entries[x].deps == was[x].deps && SameMain(was, entries, x)
  }

  // ----- shaking the tree -----

  // Only requests by enabled components, and by main, are left with the enabled ones.
  ghost predicate Shaken(base: Entries, entries: Entries, enabled: set<Name>) {
    && entries.Keys == base.Keys && enabled <= base.Keys
    && (forall x :: x in base ==> entries[x].deps == base[x].deps)
    && (forall x, y :: y in enabled ==> ShakenAt(base, entries, enabled, x, y))
  }

  ghost predicate ShakenAt(base: Entries, entries: Entries, enabled: set<Name>, x: Name, y: Name)
    requires y in base && y in entries
  {
    Count(entries[y].requesters, x) == if x == MAIN || x in enabled then Count(base[y].requesters, x) else 0
  }

  // Reached from main along the requests of base.
  ghost predicate BaseChain(base: Entries, path: seq<Name>) {
    && path != [] && path[0] in base && MAIN in base[path[0]].requesters
    && IsPath(base, path)
  }

  ghost predicate BaseReached(base: Entries, x: Name) {
    exists path :: BaseChain(base, path) && path[|path| - 1] == x
  }

  ghost predicate KeepsReached(base: Entries, enabled: set<Name>) {
    forall x :: BaseReached(base, x) ==> x in enabled
  }

  // The requesters of y without x.
  function Without(entries: Entries, x: Name, deps: set<Name>): Entries {
    map z | z in entries ::
      if z in deps then entries[z].(requesters := entries[z].requesters - {x}) else entries[z]
  }

  lemma DisableShaken(base: Entries, entries: Entries, enabled: set<Name>, x: Name)
    requires Synced(base) && Shaken(base, entries, enabled) && x in enabled
    ensures Shaken(base, Without(entries, x, entries[x].deps.Keys * enabled), enabled - {x})
  {
    var after := Without(entries, x, entries[x].deps.Keys * enabled);
    forall z, y | y in enabled - {x} ensures ShakenAt(base, after, enabled - {x}, z, y) {
      assert InSync(base, x, y) && ShakenAt(base, entries, enabled, z, y);
    }
  }

  // What is reached has a request that is still counted.
  lemma ReachedHasRequest(base: Entries, enabled: set<Name>, x: Name)
    requires Synced(base) && KeepsReached(base, enabled) && BaseReached(base, x)
    ensures x in base && exists z :: (z == MAIN || z in enabled) && Count(base[x].requesters, z) > 0
  {
    var path :| BaseChain(base, path) && path[|path| - 1] == x;
    if |path| == 1 {
      assert Count(base[x].requesters, MAIN) > 0;
    } else {
      var before := path[..|path| - 1];
      var z := before[|before| - 1];
      assert Edge(base, path[|path| - 2], path[|path| - 1]);
      assert BaseChain(base, before) by {
        forall i | 0 <= i < |before| - 1 ensures Edge(base, before[i], before[i + 1]) {
          assert Edge(base, path[i], path[i + 1]);
        }
      }
      assert BaseReached(base, z);
      assert InSync(base, z, x) && Count(base[x].requesters, z) > 0;
    }
  }

  // A component without requests is not reached.
  lemma DisableKeepsReached(base: Entries, entries: Entries, enabled: set<Name>, x: Name)
    requires Synced(base) && Shaken(base, entries, enabled) && KeepsReached(base, enabled) && x in enabled
    requires forall z :: Count(entries[x].requesters, z) == 0
    ensures KeepsReached(base, enabled - {x})
  {
    assert forall z :: z == MAIN || z in enabled ==> Count(base[x].requesters, z) == 0 by {
      forall z | z == MAIN || z in enabled ensures Count(base[x].requesters, z) == 0 {
        assert ShakenAt(base, entries, enabled, z, x);
      }
    }
    hide Synced, Shaken, BaseReached, Count;
    if BaseReached(base, x) { ReachedHasRequest(base, enabled, x); }
  }

  // Once every enabled component has a request, every one is reached: requests lead back, against the order, to main.
  lemma FixpointReached(base: Entries, entries: Entries, enabled: set<Name>, order: seq<Name>, j: nat)
    requires Synced(base) && Shaken(base, entries, enabled) && IsOrder(base, order)
    requires forall y :: y in enabled ==> exists x :: Count(entries[y].requesters, x) > 0
    requires j < |order| && order[j] in enabled
    ensures BaseReached(base, order[j])
    decreases |order| - j
  {
    var y := order[j];
    var x :| Count(entries[y].requesters, x) > 0;
    assert ShakenAt(base, entries, enabled, x, y);
    if x == MAIN {
      assert BaseChain(base, [y]) && [y][|[y]| - 1] == y;
    } else {
      assert x in enabled && InSync(base, x, y);
      assert Edge(base, x, y);
      var k :| 0 <= k < |order| && order[k] == x;
      Earlier(base, order, k, j);
      FixpointReached(base, entries, enabled, order, k);
      OneFurther(base, x, y);
    }
  }

  lemma Earlier(base: Entries, order: seq<Name>, k: nat, j: nat)
    requires IsOrder(base, order) && k < |order| && j < |order| && Edge(base, order[k], order[j])
    ensures j < k
  {
    assert After(base, order, k);
    var m :| 0 <= m < k && order[..k][m] == order[j];
    assert order[m] == order[j];
  }

  lemma OneFurther(base: Entries, x: Name, y: Name)
    requires BaseReached(base, x) && Edge(base, x, y)
    ensures BaseReached(base, y)
  {
    var path :| BaseChain(base, path) && path[|path| - 1] == x;
    var longer := path + [y];
    forall i | 0 <= i < |longer| - 1 ensures Edge(base, longer[i], longer[i + 1]) {
      if i < |path| - 1 { assert Edge(base, path[i], path[i + 1]); }
    }
    assert BaseChain(base, longer) && longer[|longer| - 1] == y;
  }

  // ----- the code -----

  method TotalRequests(requesters: map<Name, nat>) returns (total: nat)
    ensures total == 0 <==> forall x :: Count(requesters, x) == 0
  {
    total := 0;
    var rest := requesters.Keys;
    while rest != {}
      invariant rest <= requesters.Keys
      invariant total == 0 <==> forall x :: x in requesters && x !in rest ==> requesters[x] == 0
    {
      var x :| x in rest;
      rest := rest - {x};
      total := total + requesters[x];
    }
    assert forall x :: x in requesters ==> requesters[x] == Count(requesters, x);
  }

  class Trimmer {
    var entries: Entries        // shared by the list of components and the map of the enabled ones
    var enabled: set<Name>

    constructor (entries: Entries)
      ensures this.entries == entries && enabled == entries.Keys
    {
      this.entries, enabled := entries, entries.Keys;
    }

    // One dependency of x withdrawn.
    method Unrequest(x: Name, dep: Name) returns (outcome: Outcome)
      requires Synced(entries) && x in entries
      modifies this`entries
      ensures outcome != OutOfSync && (outcome == NotRequested <==> Count(old(entries)[x].deps, dep) == 0)
      ensures outcome == Trimmed ==> Synced(entries) && OtherDepsKept(old(entries), entries, x)
      ensures outcome == Trimmed ==>
        forall y :: Count(entries[x].deps, y) == Count(old(entries)[x].deps, y) - if y == dep then 1 else 0
      ensures outcome == Trimmed ==> forall y :: y in old(entries) ==> SameMain(old(entries), entries, y)
    {
      var depRequests := Count(entries[x].deps, dep);
      var heard := if dep in entries then Count(entries[dep].requesters, x) else 0;
      assert dep in entries ==> InSync(entries, x, dep);
      if depRequests != heard {
        return OutOfSync;
      }
      if depRequests <= 0 {
        return NotRequested;
      }
      WithdrawKeepsSync(entries, x, dep);
      entries := Withdraw(entries, x, dep);
      return Trimmed;
    }

    method UnrequestAll(x: Name, list: seq<Name>) returns (outcome: Outcome)
      requires Synced(entries) && x in entries
      modifies this`entries
      ensures outcome != OutOfSync
      ensures outcome == NotRequested <==> exists y :: multiset(list)[y] > Count(old(entries)[x].deps, y)
      ensures outcome == Trimmed ==> Synced(entries) && OtherDepsKept(old(entries), entries, x)
      ensures outcome == Trimmed ==> Less(old(entries), entries, x, list)
      ensures outcome == Trimmed ==> forall y :: y in old(entries) ==> SameMain(old(entries), entries, y)
    {
      ghost var was := entries;
      for k := 0 to |list|
        invariant Synced(entries) && OtherDepsKept(was, entries, x) && Less(was, entries, x, list[..k])
        invariant forall y :: y in was ==> SameMain(was, entries, y)
      {
        hide Synced;
        ghost var before := entries;
        assert list[..k + 1] == list[..k] + [list[k]];
        TakenSoFar(list, k);
        outcome := Unrequest(x, list[k]);
        if outcome != Trimmed {
          assert multiset(list)[list[k]] > Count(was[x].deps, list[k]);
          return;
        }
      }
      assert list[..|list|] == list;
      outcome := Trimmed;
    }

    static lemma TakenSoFar(list: seq<Name>, k: nat)
      requires k < |list|
      ensures multiset(list)[list[k]] > multiset(list[..k])[list[k]]
    {
      assert list == list[..k] + ([list[k]] + list[k + 1..]);
    }

    // The part of removeDirectDeps for one component.
    method RemoveFor(x: Name, config: Config) returns (outcome: Outcome)
      requires Synced(entries) && x in entries
      modifies this`entries
      ensures outcome != OutOfSync
      ensures outcome == NotRequested <==> exists y :: Remaining(old(entries), config, x, y) < 0
      ensures outcome == Trimmed ==> Synced(entries) && OtherDepsKept(old(entries), entries, x)
      ensures outcome == Trimmed ==> Processed(old(entries), entries, config, x)
      ensures outcome == Trimmed ==> forall y :: y in old(entries) && y != x ==> SameMain(old(entries), entries, y)
    {
      ghost var was := entries;
      if MAIN in entries[x].requesters {
        if x !in config.fromMain {
          DropMainKeepsSync(entries, x);
          entries := entries[x := entries[x].(requesters := entries[x].requesters - {MAIN})];
        }
      }
      ghost var middle := entries;
      assert middle[x].deps == was[x].deps && OtherDepsKept(was, middle, x);
      hide Synced;
      outcome := UnrequestAll(x, config.Unrequests(x));
      assert (exists y :: Remaining(was, config, x, y) < 0) <==>
        exists y :: multiset(config.Unrequests(x))[y] > Count(middle[x].deps, y) by {
        if y :| Remaining(was, config, x, y) < 0 {
          assert multiset(config.Unrequests(x))[y] > Count(middle[x].deps, y);
        }
        if y :| multiset(config.Unrequests(x))[y] > Count(middle[x].deps, y) {
          assert Remaining(was, config, x, y) < 0;
        }
      }
    }

    // The turn of its loop for the component at i.
    method RemoveNext(ghost was: Entries, order: seq<Name>, i: nat, config: Config) returns (outcome: Outcome)
      requires Synced(entries) && i < |order| && PartProcessed(was, entries, config, order, i)
      requires order[i] in was
      modifies this`entries
      ensures outcome != OutOfSync
      ensures outcome == NotRequested <==> !ValidFor(was, config, order[i])
      ensures outcome == Trimmed ==> Synced(entries) && PartProcessed(was, entries, config, order, i + 1)
    {
      ghost var before := entries;
      NextUntouched(was, before, config, order, i);
      SameRemaining(was, before, config, order[i]);
      hide Synced, PartProcessed;
      outcome := RemoveFor(order[i], config);
      if outcome == Trimmed {
        MoreProcessed(was, before, entries, config, order, i);
      }
    }

    method RemoveDirectDeps(order: seq<Name>, config: Config) returns (outcome: Outcome)
      requires Synced(entries) && Distinct(order) && forall n :: n in order <==> n in entries
      modifies this`entries
      ensures outcome != OutOfSync && (outcome == NotRequested <==> !Valid(old(entries), config))
      ensures outcome == Trimmed ==> Synced(entries) && AllProcessed(old(entries), entries, config)
    {
      ghost var was := entries;
      PartStarts(was, config, order);
      hide Synced, PartProcessed, Distinct, Remaining, AllProcessed, ValidFor;
      for i := 0 to |order|
        invariant Synced(entries) && PartProcessed(was, entries, config, order, i)
        invariant forall j :: 0 <= j < i ==> order[j] in was && ValidFor(was, config, order[j])
      {
        assert order[i] in order;
        outcome := RemoveNext(was, order, i, config);
        if outcome != Trimmed {
          return;
        }
      }
      PartEnds(was, entries, config, order);
      outcome := Trimmed;
    }

    // Requests by x are no longer counted.
    method Disable(x: Name)
      requires x in entries
      modifies this
      ensures entries == Without(old(entries), x, old(entries)[x].deps.Keys * old(enabled))
      ensures enabled == old(enabled) - {x}
    {
      var rest := entries[x].deps.Keys;
      ghost var was, all := entries, rest;
      while rest != {}
        invariant rest <= all && enabled == old(enabled)
        invariant entries == Without(was, x, (all - rest) * enabled)
      {
        var dep :| dep in rest;
        if dep in enabled && dep in entries {
          entries := entries[dep := entries[dep].(requesters := entries[dep].requesters - {x})];
        }
        rest := rest - {dep};
      }
      enabled := enabled - {x};
    }

    // One pass over the enabled components, in any order.
    method ShakeTreeOnce(ghost base: Entries) returns (hasChanged: bool)
      requires Synced(base) && Shaken(base, entries, enabled) && KeepsReached(base, enabled)
      modifies this
      ensures Shaken(base, entries, enabled) && KeepsReached(base, enabled)
      ensures if hasChanged then enabled < old(enabled) else enabled == old(enabled) && AllRequested(entries, enabled)
    {
      hasChanged := false;
      var rest := enabled;
      ghost var all := enabled;
      while rest != {}
        invariant rest <= enabled <= all && Shaken(base, entries, enabled) && KeepsReached(base, enabled)
        invariant if hasChanged then enabled < all else enabled == all && AllRequested(entries, all - rest)
      {
        var x :| x in rest;
        var total := TotalRequests(entries[x].requesters);
        if total == 0 {
          DisableShaken(base, entries, enabled, x);
          DisableKeepsReached(base, entries, enabled, x);
          hide Shaken, KeepsReached, Without;
          hasChanged := true;
          Disable(x);
        } else {
          assert exists z :: Count(entries[x].requesters, z) > 0;
        }
        rest := rest - {x};
      }
    }

    method Shake(ghost base: Entries)
      requires Synced(base) && Shaken(base, entries, enabled) && KeepsReached(base, enabled)
      modifies this
      ensures Shaken(base, entries, enabled) && KeepsReached(base, enabled) && AllRequested(entries, enabled)
    {
      hide *;
      var hasChanged := true;
      while hasChanged
        invariant Shaken(base, entries, enabled) && KeepsReached(base, enabled)
        invariant !hasChanged ==> AllRequested(entries, enabled)
        decreases enabled, hasChanged
      {
        hasChanged := ShakeTreeOnce(base);
      }
    }
  }

  // ----- what remains -----

  // After the withdrawals, chains of requests are what they mean.
  lemma ChainIff(was: Entries, base: Entries, config: Config, path: seq<Name>)
    requires Synced(was) && Synced(base) && AllProcessed(was, base, config)
    ensures Chain(was, config, path) <==> BaseChain(base, path)
  {
    forall x, y ensures Requests(was, config, x, y) <==> Edge(base, x, y) {
      if x in was { assert Processed(was, base, config, x); }
    }
    forall x ensures Wanted(was, config, x) <==> x in base && MAIN in base[x].requesters {
      if x in was { assert Processed(was, base, config, x); }
    }
    hide Wanted, Requests, Edge, Synced, AllProcessed;
    if Chain(was, config, path) {
      forall i | 0 <= i < |path| - 1 ensures Edge(base, path[i], path[i + 1]) {
        assert Requests(was, config, path[i], path[i + 1]);
      }
    }
    if BaseChain(base, path) {
      forall i | 0 <= i < |path| - 1 ensures Requests(was, config, path[i], path[i + 1]) {
        assert Edge(base, path[i], path[i + 1]);
      }
    }
  }

  lemma ReachedIff(was: Entries, base: Entries, config: Config, x: Name)
    requires Synced(was) && Synced(base) && AllProcessed(was, base, config)
    ensures Reached(was, config, x) <==> BaseReached(base, x)
  {
    hide Synced, AllProcessed;
    if path :| Chain(was, config, path) && path[|path| - 1] == x { ChainIff(was, base, config, path); }
    if path :| BaseChain(base, path) && path[|path| - 1] == x { ChainIff(was, base, config, path); }
  }

  // Withdrawing requests keeps the order valid.
  lemma OrderStays(was: Entries, base: Entries, config: Config, order: seq<Name>)
    requires IsOrder(was, order) && AllProcessed(was, base, config) && Synced(base)
    ensures IsOrder(base, order)
  {
    forall j | 0 <= j < |order| ensures After(base, order, j) {
      assert order[j] in order && Processed(was, base, config, order[j]) && After(was, order, j);
      forall dep | Edge(base, order[j], dep) ensures dep in order[..j] {
        assert Count(base[order[j]].deps, dep) > 0;
        assert Edge(was, order[j], dep);
      }
    }
  }

  function Select(order: seq<Name>, kept: set<Name>): seq<Name> {
    if order == [] then []
    else
      Select(order[..|order| - 1], kept) + (if order[|order| - 1] in kept then [order[|order| - 1]] else [])
  }

  // Start of the shaking.
  lemma StartShaken(base: Entries)
    requires Synced(base)
    ensures Shaken(base, base, base.Keys) && KeepsReached(base, base.Keys)
  {
    forall x, y | y in base ensures ShakenAt(base, base, base.Keys, x, y) {}
    forall x | BaseReached(base, x) ensures x in base {
      var path :| BaseChain(base, path) && path[|path| - 1] == x;
      if |path| > 1 { assert Edge(base, path[|path| - 2], path[|path| - 1]); }
    }
  }

  ghost predicate AllRequested(entries: Entries, names: set<Name>) {
    forall y :: y in names && y in entries ==> exists x :: Count(entries[y].requesters, x) > 0
  }

  // TrimNonRequested, on what toposortComponentList returned. It panics exactly when a component withdraws a request
  // more often than it made it; its other panic is not reachable. Otherwise it keeps, in their order, exactly the
  // components reached from main.
  method TrimNonRequested(entries: Entries, order: seq<Name>, config: Config)
    returns (output: Option<seq<Name>>, ghost kept: set<Name>)
    requires Synced(entries) && IsOrder(entries, order)
    ensures output == None <==> !Valid(entries, config)
    ensures output.Some? ==> output.value == Select(order, kept)
    ensures output.Some? ==> forall x :: x in kept <==> Reached(entries, config, x)
  {
    var trimmer := new Trimmer(entries);
    assert Distinct(order) && forall n :: n in order <==> n in entries;
    hide Synced, IsOrder, Distinct, Valid, AllProcessed, Reached;
    var outcome := trimmer.RemoveDirectDeps(order, config);
    if outcome != Trimmed {
      return None, {};
    }
    ghost var base := trimmer.entries;
    AllKept(entries, base, config);
    StartShaken(base);
    trimmer.Shake(base);
    kept := trimmer.enabled;
    KeptIsReached(entries, base, trimmer.entries, kept, order, config);
    var result := Selected(order, trimmer.enabled);
    return Some(result), kept;
  }

  lemma AllKept(was: Entries, base: Entries, config: Config)
    requires AllProcessed(was, base, config)
    ensures base.Keys == was.Keys
  {
  }

  lemma KeptIsReached(was: Entries, base: Entries, entries: Entries, kept: set<Name>, order: seq<Name>, config: Config)
    requires Synced(was) && Synced(base) && AllProcessed(was, base, config) && IsOrder(was, order)
    requires Shaken(base, entries, kept) && KeepsReached(base, kept) && AllRequested(entries, kept)
    ensures forall x :: x in kept <==> Reached(was, config, x)
  {
    OrderStays(was, base, config, order);
    forall x ensures x in kept <==> Reached(was, config, x) {
      ReachedIff(was, base, config, x);
      if x in kept { EnabledReached(base, entries, kept, order, x); }
    }
  }

  method Selected(order: seq<Name>, kept: set<Name>) returns (output: seq<Name>)
    ensures output == Select(order, kept)
  {
    output := [];
    for i := 0 to |order|
      invariant output == Select(order[..i], kept)
    {
      assert order[..i + 1][..i] == order[..i];
      if order[i] in kept {
        output := output + [order[i]];
      }
    }
    assert order[..|order|] == order;
  }

  lemma EnabledReached(base: Entries, entries: Entries, enabled: set<Name>, order: seq<Name>, x: Name)
    requires Synced(base) && Shaken(base, entries, enabled) && IsOrder(base, order)
    requires AllRequested(entries, enabled) && x in enabled
    ensures BaseReached(base, x)
  {
    assert x in order;
    var j :| 0 <= j < |order| && order[j] == x;
    FixpointReached(base, entries, enabled, order, j);
  }

  lemma {:induction false} SelectHas(order: seq<Name>, kept: set<Name>, x: Name)
    ensures x in Select(order, kept) <==> x in order && x in kept
  {
    if order != [] {
      SelectHas(order[..|order| - 1], kept, x);
      assert order == order[..|order| - 1] + [order[|order| - 1]];
    }
  }

  // What each component still requests comes before it.
  ghost predicate Initializable(entries: Entries, config: Config, output: seq<Name>) {
    forall j :: 0 <= j < |output| ==> InitAfter(entries, config, output, j)
  }

  ghost predicate InitAfter(entries: Entries, config: Config, output: seq<Name>, j: nat)
    requires j < |output|
  {
    forall y :: Requests(entries, config, output[j], y) ==> y in output[..j]
  }

  lemma {:induction false} SelectInitializable(entries: Entries, config: Config, order: seq<Name>, kept: set<Name>)
    requires DepsFirst(entries, order)
    requires forall x, y :: x in kept && Requests(entries, config, x, y) ==> y in kept
    ensures Initializable(entries, config, Select(order, kept))
  {
    if order != [] {
      var before, last := order[..|order| - 1], order[|order| - 1];
      assert DepsFirst(entries, before) by {
        forall j | 0 <= j < |before| ensures After(entries, before, j) {
          assert After(entries, order, j) && before[..j] == order[..j];
        }
      }
      SelectInitializable(entries, config, before, kept);
      var output, rest := Select(order, kept), Select(before, kept);
      forall j | 0 <= j < |output| ensures InitAfter(entries, config, output, j) {
        if j < |rest| {
          assert InitAfter(entries, config, rest, j) && output[..j] == rest[..j];
        } else {
          assert output[..j] == rest && output[j] == last && After(entries, order, |order| - 1);
          forall y | Requests(entries, config, last, y) ensures y in rest {
            assert Edge(entries, last, y);
            SelectHas(before, kept, y);
          }
        }
      }
    }
  }

  // What a reached component requests is reached.
  lemma ReachedClosed(entries: Entries, config: Config, x: Name, y: Name)
    requires Reached(entries, config, x) && Requests(entries, config, x, y)
    ensures Reached(entries, config, y)
  {
    var path :| Chain(entries, config, path) && path[|path| - 1] == x;
    var longer := path + [y];
    forall i | 0 <= i < |longer| - 1 ensures Requests(entries, config, longer[i], longer[i + 1]) {
      if i < |path| - 1 { assert Requests(entries, config, path[i], path[i + 1]); }
    }
    assert Chain(entries, config, longer) && longer[|longer| - 1] == y;
  }

  // ----- starting a program -----

  datatype Startup = RecursiveRequest | RecursiveDependencies | BadUnrequest | Enabled(components: seq<Name>)

  // What starting a program comes to, in terms of the requests it makes. Edges out of sync do not occur.
  ghost predicate Starts(requests: seq<Request>, config: Config, result: Startup) {
    var walk := WalkOf(requests);
    if walk == None then result == RecursiveRequest
    else StartsFrom(Graph(walk.value), config, result)
  }

  ghost predicate StartsFrom(graph: Entries, config: Config, result: Startup) {
    if exists cycle :: IsCycle(graph, cycle) then result == RecursiveDependencies
    else if !Valid(graph, config) then result == BadUnrequest
    else
      && result.Enabled? && Distinct(result.components)
      && (forall x :: x in result.components <==> Reached(graph, config, x))
      && Initializable(graph, config, result.components)
  }

  // ResolveList, then TrimNonRequested: each delivers what the next one relies on.
  method StartUp(requests: seq<Request>, config: Config) returns (result: Startup)
    requires forall i :: 0 <= i < |requests| ==> Named(requests[i])
    ensures Starts(requests, config, result)
  {
    var resolver := new Resolver();
    var panicked := resolver.ResolveList(requests);
    hide Settled;
    if panicked {
      return RecursiveRequest;
    }
    ghost var trip := WalkOf(requests).value;
    ResolvedIsGraph(resolver.entries, trip);
    result := Order(Resolved(resolver.entries), config);
  }

  method Order(graph: Entries, config: Config) returns (result: Startup)
    requires Synced(graph) && Closed(graph)
    ensures StartsFrom(graph, config, result)
  {
    var order := ToposortComponentList(graph);
    if order == None {
      return RecursiveDependencies;
    }
    var output;
    ghost var kept;
    output, kept := TrimNonRequested(graph, order.value, config);
    if output == None {
      return BadUnrequest;
    }
    StartedRight(graph, config, order.value, kept);
    return Enabled(output.value);
  }

  lemma StartedRight(entries: Entries, config: Config, order: seq<Name>, kept: set<Name>)
    requires IsOrder(entries, order) && forall x :: x in kept <==> Reached(entries, config, x)
    ensures Distinct(Select(order, kept)) && Initializable(entries, config, Select(order, kept))
    ensures forall x :: x in Select(order, kept) <==> Reached(entries, config, x)
  {
    forall x, y | x in kept && Requests(entries, config, x, y) ensures y in kept {
      ReachedClosed(entries, config, x, y);
    }
    SelectInitializable(entries, config, order, kept);
    SelectDistinct(order, kept);
    forall x ensures x in Select(order, kept) <==> Reached(entries, config, x) {
      SelectHas(order, kept, x);
      if Reached(entries, config, x) { ReachedThere(entries, config, x); }
    }
  }

  lemma ReachedThere(entries: Entries, config: Config, x: Name)
    requires Reached(entries, config, x)
    ensures x in entries
  {
    var path :| Chain(entries, config, path) && path[|path| - 1] == x;
    if |path| > 1 { assert Requests(entries, config, path[|path| - 2], path[|path| - 1]); }
  }

  lemma {:induction false} SelectDistinct(order: seq<Name>, kept: set<Name>)
    requires Distinct(order)
    ensures Distinct(Select(order, kept))
  {
    if order != [] {
      var before, last := order[..|order| - 1], order[|order| - 1];
      assert Distinct(before);
      SelectDistinct(before, kept);
      SelectHas(before, kept, last);
      DistinctConcat(Select(before, kept), if last in kept then [last] else []);
    }
  }

  ghost predicate AllProcessed(was: Entries, entries: Entries, config: Config) {
    entries.Keys == was.Keys && forall x :: x in was ==> Processed(was, entries, config, x)
  }

  ghost predicate PartProcessed(was: Entries, entries: Entries, config: Config, order: seq<Name>, i: nat) {
    && i <= |order| && entries.Keys == was.Keys && Distinct(order) && (forall n :: n in order <==> n in was)
    && (forall j :: 0 <= j < i ==> Processed(was, entries, config, order[j]))
    && (forall j :: i <= j < |order| ==> Untouched(was, entries, order[j]))
  }

  lemma PartStarts(was: Entries, config: Config, order: seq<Name>)
    requires Distinct(order) && forall n :: n in order <==> n in was
    ensures PartProcessed(was, was, config, order, 0)
  {
    forall j | 0 <= j < |order| ensures order[j] in was && Untouched(was, was, order[j]) {
      assert order[j] in order;
    }
  }

  lemma PartEnds(was: Entries, entries: Entries, config: Config, order: seq<Name>)
    requires PartProcessed(was, entries, config, order, |order|)
    ensures AllProcessed(was, entries, config)
  {
    forall x | x in was ensures Processed(was, entries, config, x) {
      var j :| 0 <= j < |order| && order[j] == x;
    }
  }

  lemma NextUntouched(was: Entries, entries: Entries, config: Config, order: seq<Name>, i: nat)
    requires PartProcessed(was, entries, config, order, i) && i < |order|
    ensures order[i] in was && order[i] in entries && entries.Keys == was.Keys && Untouched(was, entries, order[i])
  {
    assert order[i] in order;
  }

  lemma SameRemaining(was: Entries, before: Entries, config: Config, x: Name)
    requires x in was && x in before && before[x].deps == was[x].deps
    ensures forall y :: Remaining(before, config, x, y) == Remaining(was, config, x, y)
  {
  }

  lemma MoreProcessed(was: Entries, before: Entries, after: Entries, config: Config, order: seq<Name>, i: nat)
    requires PartProcessed(was, before, config, order, i) && i < |order| && order[i] in before
    requires OtherDepsKept(before, after, order[i]) && Processed(before, after, config, order[i])
    requires forall y :: y in before && y != order[i] ==> SameMain(before, after, y)
    ensures PartProcessed(was, after, config, order, i + 1)
  {
    NextUntouched(was, before, config, order, i);
    forall j | 0 <= j < i + 1 ensures order[j] in after && Processed(was, after, config, order[j]) {
      assert order[j] in order;
      if j < i { assert order[j] != order[i] && Processed(was, before, config, order[j]); }
    }
    forall j | i + 1 <= j < |order| ensures order[j] in after && Untouched(was, after, order[j]) {
      assert order[j] in order && order[j] != order[i] && Untouched(was, before, order[j]);
    }
  }
}
