/**
 Where the bucket of an admitted pod is after each operation on a list of cells.
 */
module BucketFacts {
  import opened Common
  import opened PodProtector
  import opened PoolAdapter
  import opened Reexecution
  import Quota

  datatype Pod = Pod(cell: CellId, uid: Uid)

  function PodOf(item: Item): Pod {
    Pod(item.cell, item.uid)
  }

  // b records the admission of p at time t.
  predicate Records(b: Bucket, p: Pod, t: Time) {
    b.uid == Some(p.uid) && b.start == t
  }

  ghost predicate RecordedIn(buckets: seq<Bucket>, p: Pod, t: Time) {
    exists b :: b in buckets && Records(b, p, t)
  }

  // Some cell of p's name holds a bucket for p that starts at t.
  ghost predicate Recorded(cells: seq<Cell>, p: Pod, t: Time) {
    exists i :: 0 <= i < |cells| && cells[i].id == p.cell && RecordedIn(cells[i].buckets, p, t)
  }

  // The name a webhook records for a pod: the pod's own where the cell requires one, else none.
  function RecordedName(cfg: Config, name: Pod -> string, p: Pod): string {
    if cfg.requiresPodName(p.cell, name(p)) then name(p) else ""
  }

  // Buckets as webhooks write them: one pod each.
  predicate Proper(cfg: Config, name: Pod -> string, id: CellId, b: Bucket) {
    b.uid.Some? && b.counter.None? && b.end.None? && b.name == RecordedName(cfg, name, Pod(id, b.uid.value))
  }

  ghost predicate AllProper(cfg: Config, name: Pod -> string, cells: seq<Cell>) {
    forall i :: 0 <= i < |cells| ==> forall b :: b in cells[i].buckets ==> Proper(cfg, name, cells[i].id, b)
  }

  ghost predicate DistinctIds(cells: seq<Cell>) {
    forall i, j :: 0 <= i < j < |cells| ==> cells[i].id != cells[j].id
  }

  // ----- permutation -----

  lemma PermutedRecorded(a: seq<Cell>, b: seq<Cell>, p: Pod, t: Time)
    requires Permuted(a, b)
    ensures Recorded(a, p, t) ==> Recorded(b, p, t)
  {
    if Recorded(a, p, t) {
      var i :| 0 <= i < |a| && a[i].id == p.cell && RecordedIn(a[i].buckets, p, t);
      var x :| x in a[i].buckets && Records(x, p, t);
      assert x in multiset(b[i].buckets);
      assert RecordedIn(b[i].buckets, p, t);
    }
  }

  lemma PermutedProper(cfg: Config, name: Pod -> string, a: seq<Cell>, b: seq<Cell>)
    requires Permuted(a, b)
    ensures AllProper(cfg, name, a) ==> AllProper(cfg, name, b)
    ensures DistinctIds(a) ==> DistinctIds(b)
  {
    if AllProper(cfg, name, a) {
      forall i, x | 0 <= i < |b| && x in b[i].buckets ensures Proper(cfg, name, b[i].id, x) {
        assert x in multiset(a[i].buckets);
        assert x in a[i].buckets;
      }
    }
  }

  // ----- refreshing -----

  // What the refresh of one request does to the bucket of p.
  lemma RefreshRecorded(cells: seq<Cell>, item: Item, now: Time, p: Pod, t: Time)
    ensures PodOf(item) != p && Recorded(cells, p, t) ==> Recorded(Refresh(cells, item, now), p, t)
    ensures t == now && Recorded(cells, p, t) ==> Recorded(Refresh(cells, item, now), p, t)
    ensures PodOf(item) == p && HasBucket(cells, item) ==> Recorded(Refresh(cells, item, now), p, now)
  {
    var after := Refresh(cells, item, now);
    if HasBucket(cells, item) {
      var c := FindCell(cells, item.cell);
      var k := FindUid(cells[c].buckets, item.uid);
      FindCellFirst(cells, item.cell, c);
      FindUidFirst(cells[c].buckets, item.uid, k);
      assert after[c].buckets[k] in after[c].buckets;
      if PodOf(item) == p {
        assert Records(after[c].buckets[k], p, now);
        assert RecordedIn(after[c].buckets, p, now);
      }
      if Recorded(cells, p, t) && (PodOf(item) != p || t == now) {
        var i :| 0 <= i < |cells| && cells[i].id == p.cell && RecordedIn(cells[i].buckets, p, t);
        var x :| x in cells[i].buckets && Records(x, p, t);
        var j :| 0 <= j < |cells[i].buckets| && cells[i].buckets[j] == x;
        assert Records(after[i].buckets[j], p, t);
        assert RecordedIn(after[i].buckets, p, t);
      }
    }
  }

  ghost predicate Refreshes(cells: seq<Cell>, args: seq<Item>, p: Pod) {
    exists i :: 0 <= i < |args| && PodOf(args[i]) == p && HasBucket(cells, args[i])
  }

  lemma {:induction false} RefreshAllRecorded(cells: seq<Cell>, args: seq<Item>, now: Time, p: Pod, t: Time)
    ensures Refreshes(cells, args, p) ==> Recorded(RefreshAll(cells, args, now), p, now)
    ensures !Refreshes(cells, args, p) && Recorded(cells, p, t) ==> Recorded(RefreshAll(cells, args, now), p, t)
  {
    if args != [] {
      var last := |args| - 1;
      var rest, item := args[..last], args[last];
      var before := RefreshAll(cells, rest, now);
      RefreshAllRecorded(cells, rest, now, p, t);
      RefreshAllKeepsUids(cells, rest, now);
      SameUidsSameBuckets(cells, before, item);
      RefreshRecorded(before, item, now, p, t);
      RefreshRecorded(before, item, now, p, now);
      if Refreshes(cells, rest, p) {
        var i :| 0 <= i < |rest| && PodOf(rest[i]) == p && HasBucket(cells, rest[i]);
        assert args[i] == rest[i];
      }
      if Refreshes(cells, args, p) {
        var i :| 0 <= i < |args| && PodOf(args[i]) == p && HasBucket(cells, args[i]);
        assert i < last ==> rest[i] == args[i];
      } else {
        assert PodOf(args[last]) == p ==> !HasBucket(cells, args[last]);
        if PodOf(item) == p {
          assert Refresh(before, item, now) == before;
        }
      }
    }
  }

  lemma SameButStartProper(cfg: Config, name: Pod -> string, a: seq<Cell>, b: seq<Cell>)
    requires SameButStart(a, b) && AllProper(cfg, name, a)
    ensures AllProper(cfg, name, b)
    ensures DistinctIds(a) ==> DistinctIds(b)
  {
    forall i, x | 0 <= i < |b| && x in b[i].buckets ensures Proper(cfg, name, b[i].id, x) {
      var j :| 0 <= j < |b[i].buckets| && b[i].buckets[j] == x;
      assert a[i].buckets[j] in a[i].buckets;
    }
  }

  // ----- admitting -----

  lemma AddBucketRecorded(cfg: Config, cells: seq<Cell>, item: Item, now: Time, p: Pod, t: Time)
    ensures Recorded(cells, p, t) ==> Recorded(AddBucket(cfg, cells, item, now), p, t)
    ensures Recorded(AddBucket(cfg, cells, item, now), PodOf(item), now)
  {
    var after := AddBucket(cfg, cells, item, now);
    var c := FindCell(cells, item.cell);
    FindCellFirst(cells, item.cell, c);
    var e := if c < 0 then |cells| else c;
    assert NewBucket(cfg, item, now) in after[e].buckets;
    assert RecordedIn(after[e].buckets, PodOf(item), now);
    if Recorded(cells, p, t) {
      var i :| 0 <= i < |cells| && cells[i].id == p.cell && RecordedIn(cells[i].buckets, p, t);
      var x :| x in cells[i].buckets && Records(x, p, t);
      assert x in after[i].buckets;
      assert RecordedIn(after[i].buckets, p, t);
    }
  }

  lemma AddBucketProper(cfg: Config, name: Pod -> string, cells: seq<Cell>, item: Item, now: Time)
    requires AllProper(cfg, name, cells) && DistinctIds(cells) && item.name == name(PodOf(item))
    ensures AllProper(cfg, name, AddBucket(cfg, cells, item, now)) && DistinctIds(AddBucket(cfg, cells, item, now))
  {
    var c := FindCell(cells, item.cell);
    FindCellFirst(cells, item.cell, c);
    var after, added := AddBucket(cfg, cells, item, now), NewBucket(cfg, item, now);
    forall i, b | 0 <= i < |after| && b in after[i].buckets ensures Proper(cfg, name, after[i].id, b) {
      assert b == added || (i < |cells| && b in cells[i].buckets);
    }
  }

  lemma {:induction false} AdmitAllRecorded(cfg: Config, cells: seq<Cell>, t: Quota.Tally, items: seq<Item>, now: Time,
                                            p: Pod, time: Time)
    ensures Recorded(cells, p, time) ==> Recorded(AdmitAll(cfg, cells, t, items, now), p, time)
    ensures forall y :: Admitted(t, items, y) ==> Recorded(AdmitAll(cfg, cells, t, items, now), PodOf(y), now)
    decreases |items|
  {
    if items != [] {
      var last := |items| - 1;
      var one, t', rest := AdmitOne(cfg, cells, t, items[last], now), t.After(items[last].status), items[..last];
      AddBucketRecorded(cfg, cells, items[last], now, p, time);
      AdmitAllRecorded(cfg, one, t', rest, now, p, time);
      AdmitAllRecorded(cfg, one, t', rest, now, PodOf(items[last]), now);
      forall y | Admitted(t, items, y) ensures Recorded(AdmitAll(cfg, cells, t, items, now), PodOf(y), now) {
        AdmittedLast(t, items, y);
        assert Same(items[last], y) ==> PodOf(y) == PodOf(items[last]);
      }
    }
  }

  lemma {:induction false} AdmitAllProper(cfg: Config, name: Pod -> string, cells: seq<Cell>, t: Quota.Tally,
                                          items: seq<Item>, now: Time)
    requires AllProper(cfg, name, cells) && DistinctIds(cells)
    requires forall k :: 0 <= k < |items| ==> items[k].name == name(PodOf(items[k]))
    ensures AllProper(cfg, name, AdmitAll(cfg, cells, t, items, now))
    ensures DistinctIds(AdmitAll(cfg, cells, t, items, now))
    decreases |items|
  {
    if items != [] {
      var last := |items| - 1;
      AddBucketProper(cfg, name, cells, items[last], now);
      AdmitAllProper(cfg, name, AdmitOne(cfg, cells, t, items[last], now), t.After(items[last].status), items[..last],
                     now);
    }
  }

  // ----- the history of a cell and its uids -----

  function Uids(buckets: seq<Bucket>): set<Uid> {
    set b | b in buckets && b.uid.Some? :: b.uid.value
  }

  lemma {:induction false} UidsBounded(buckets: seq<Bucket>)
    ensures |Uids(buckets)| <= |buckets|
  {
    if buckets == [] {
      assert Uids(buckets) == {};
    } else {
      UidsBounded(buckets[1..]);
      var head := if buckets[0].uid.Some? then {buckets[0].uid.value} else {};
      assert buckets == [buckets[0]] + buckets[1..];
      assert Uids(buckets) == head + Uids(buckets[1..]);
    }
  }

  lemma {:induction false} ProperCounts(buckets: seq<Bucket>)
    requires forall b :: b in buckets ==> b.counter.None?
    ensures Admissions(buckets) == |buckets|
  {
    if buckets != [] {
      assert buckets[0] in buckets;
      ProperCounts(buckets[1..]);
    }
  }
}
