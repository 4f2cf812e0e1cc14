/**
 The order in which components are initialized (util/component/interface.go, toposortComponentList): a depth-first
 search over maps iterated in any order.
 */
module Toposort {
  import opened Common

  type Name = string

  // How often each requester asked for a component, and how often it asked for each dependency.
  datatype Entry = Entry(requesters: map<Name, nat>, deps: map<Name, nat>)

  type Entries = map<Name, Entry>

  predicate Edge(entries: Entries, x: Name, y: Name) {
    x in entries && y in entries[x].deps
  }

  ghost predicate Closed(entries: Entries) {
    forall x, y :: Edge(entries, x, y) ==> y in entries
  }

  ghost predicate IsPath(entries: Entries, path: seq<Name>) {
    forall i :: 0 <= i < |path| - 1 ==> Edge(entries, path[i], path[i + 1])
  }

  ghost predicate IsCycle(entries: Entries, path: seq<Name>) {
    |path| > 1 && IsPath(entries, path) && path[0] == path[|path| - 1]
  }

  // Every component comes after all it depends on.
  ghost predicate DepsFirst(entries: Entries, sorted: seq<Name>) {
    forall j :: 0 <= j < |sorted| ==> After(entries, sorted, j)
  }

  ghost predicate After(entries: Entries, sorted: seq<Name>, j: nat)
    requires j < |sorted|
  {
    forall dep :: Edge(entries, sorted[j], dep) ==> dep in sorted[..j]
  }

  // Each component once, dependencies first.
  ghost predicate IsOrder(entries: Entries, sorted: seq<Name>) {
    && Distinct(sorted) && (forall n :: n in sorted <==> n in entries)
    && DepsFirst(entries, sorted)
  }

  // Where the search is: `stack` is what it has entered and not left.
  ghost predicate Searching(entries: Entries, pending: set<Name>, visited: set<Name>, sorted: seq<Name>,
                            stack: seq<Name>) {
    && pending <= entries.Keys && visited <= entries.Keys
    && (forall n :: n in pending <==> n in entries && n !in sorted)
    && (forall n :: n in sorted ==> n in entries && n in visited)
    && Distinct(sorted) && DepsFirst(entries, sorted)
    && (forall n :: n in stack <==> n in visited && n in pending)
    && IsPath(entries, stack)
  }

  lemma SortedSnoc(entries: Entries, sorted: seq<Name>, name: Name)
    requires Distinct(sorted) && DepsFirst(entries, sorted) && name !in sorted
    requires forall dep :: Edge(entries, name, dep) ==> dep in sorted
    ensures Distinct(sorted + [name]) && DepsFirst(entries, sorted + [name])
  {
    DistinctConcat(sorted, [name]);
    var after := sorted + [name];
    forall j | 0 <= j < |after| ensures After(entries, after, j) {
      assert after[..j] == sorted[..j];
      if j < |sorted| { assert After(entries, sorted, j); } else { assert sorted[..j] == sorted; }
    }
  }

  class Sorter {
    const entries: Entries
    var pending: set<Name>
    var visited: set<Name>
    var sorted: seq<Name>

    constructor (entries: Entries)
      ensures this.entries == entries && Searching(entries, pending, visited, sorted, [])
      ensures pending == entries.Keys && visited == {} && sorted == []
    {
      this.entries := entries;
      pending, visited, sorted := entries.Keys, {}, [];
    }

    method Dfs(name: Name, ghost stack: seq<Name>) returns (ok: bool, ghost cycle: seq<Name>)
      requires Closed(entries) && Searching(entries, pending, visited, sorted, stack)
      requires name in entries && (stack != [] ==> Edge(entries, stack[|stack| - 1], name))
      modifies this
      ensures Searching(entries, pending, visited, sorted, stack) || !ok
      ensures ok ==> name in sorted && old(sorted) <= sorted && old(visited) <= visited
      ensures !ok ==> IsCycle(entries, cycle)
      decreases entries.Keys - visited
    {
      if name !in pending {
        return true, [];
      }
      if name in visited {
        assert name in stack;
        cycle := Unwind(entries, stack, name);
        return false, cycle;
      }
      ghost var path := stack + [name];
      assert IsPath(entries, path);
      visited := visited + {name};
      var rest := entries[name].deps.Keys;
      while rest != {}
        invariant Searching(entries, pending, visited, sorted, path)
        invariant rest <= entries[name].deps.Keys
        invariant forall dep :: dep in entries[name].deps && dep !in rest ==> dep in sorted
        invariant old(sorted) <= sorted && old(visited) + {name} <= visited
        decreases rest
      {
        var dep :| dep in rest;
        assert Edge(entries, name, dep);
        rest := rest - {dep};
        ok, cycle := Dfs(dep, path);
        if !ok {
          return;
        }
      }
      Leave(entries, pending, visited, sorted, stack, name);
      sorted := sorted + [name];
      pending := pending - {name};
      return true, [];
    }

    // The cycle that closes when the search meets a component of its stack again.
    static lemma Unwind(entries: Entries, stack: seq<Name>, name: Name) returns (cycle: seq<Name>)
      requires IsPath(entries, stack) && name in stack && Edge(entries, stack[|stack| - 1], name)
      ensures IsCycle(entries, cycle)
    {
      var i :| 0 <= i < |stack| && stack[i] == name;
      cycle := stack[i..] + [name];
      forall j | 0 <= j < |cycle| - 1 ensures Edge(entries, cycle[j], cycle[j + 1]) {
        assert cycle[j] == stack[i + j];
      }
    }

    static lemma Leave(entries: Entries, pending: set<Name>, visited: set<Name>, sorted: seq<Name>, stack: seq<Name>,
                       name: Name)
      requires Searching(entries, pending, visited, sorted, stack + [name]) && name !in stack
      requires name in entries && forall dep :: dep in entries[name].deps ==> dep in sorted
      ensures Searching(entries, pending - {name}, visited, sorted + [name], stack)
    {
      var path := stack + [name];
      assert name in path;
      SortedSnoc(entries, sorted, name);
      forall i | 0 <= i < |stack| - 1 ensures Edge(entries, stack[i], stack[i + 1]) {
        assert Edge(entries, path[i], path[i + 1]);
      }
      forall n ensures n in stack <==> n in visited && n in pending - {name} {
        assert n in path <==> n in stack || n == name;
      }
    }
  }

  // None stands for the panic about recursive dependencies: it happens exactly when there is a cycle.
  method ToposortComponentList(entries: Entries) returns (result: Option<seq<Name>>)
    requires Closed(entries)
    ensures result.Some? ==> IsOrder(entries, result.value)
    ensures result == None <==> exists cycle :: IsCycle(entries, cycle)
  {
    var sorter := new Sorter(entries);
    while sorter.pending != {}
      invariant Searching(entries, sorter.pending, sorter.visited, sorter.sorted, []) && sorter.entries == entries
      invariant fresh(sorter)
      decreases sorter.pending
    {
      var seed :| seed in sorter.pending;
      var ok;
      ghost var cycle;
      ok, cycle := sorter.Dfs(seed, []);
      if !ok {
        return None;
      }
    }
    OrderHasNoCycle(entries, sorter.sorted);
    return Some(sorter.sorted);
  }

  // An order rules out cycles.
  lemma OrderHasNoCycle(entries: Entries, sorted: seq<Name>)
    requires IsOrder(entries, sorted)
    ensures !exists cycle :: IsCycle(entries, cycle)
  {
    if cycle :| IsCycle(entries, cycle) {
      assert Edge(entries, cycle[0], cycle[1]);
      var j :| 0 <= j < |sorted| && sorted[j] == cycle[0];
      Descends(entries, sorted, cycle, j);
    }
  }

  // Along a path, positions in the order fall.
  lemma {:induction false} Descends(entries: Entries, sorted: seq<Name>, path: seq<Name>, j: nat)
    requires IsOrder(entries, sorted) && |path| > 1 && IsPath(entries, path) && j < |sorted| && sorted[j] == path[0]
    ensures path[|path| - 1] in sorted[..j] && path[|path| - 1] != path[0]
  {
    assert Edge(entries, path[0], path[1]) && After(entries, sorted, j);
    var k :| 0 <= k < j && sorted[..j][k] == path[1];
    if |path| > 2 {
      var rest := path[1..];
      forall i | 0 <= i < |rest| - 1 ensures Edge(entries, rest[i], rest[i + 1]) {
        assert Edge(entries, path[i + 1], path[i + 2]);
      }
      Descends(entries, sorted, rest, k);
      assert path[|path| - 1] in sorted[..k];
      var m :| 0 <= m < k && sorted[..k][m] == path[|path| - 1];
      assert sorted[..j][m] == sorted[m];
    }
  }
}
