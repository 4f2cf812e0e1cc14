/**
 When the estimate of the stored status is safe: it is at most the number of available pods not admitted for deletion as
 long as every admitted pod that a stored snapshot shows has a bucket. What that asks of the informers, and how much of
 it an aggregator can check.
 */
module AdmissionSafety {
  import opened Common
  import opened PodProtector
  import opened PoolAdapter
  import opened Reexecution
  import opened BucketFacts
  import opened AdmissionProtocol
  import Aggregator
  import Quota

  // ----- snapshots -----

  ghost predicate Bucketed(cells: seq<Cell>, p: Pod) {
    exists time :: Recorded(cells, p, time)
  }

  // When the stored snapshot shows the pod, it has a bucket that accounts for it.
  ghost predicate CoveredPod(s: State, p: Pod, q: Quota.Criterion)
    requires s.Valid()
  {
    p.uid in s.Snapshot(p.cell, q) ==> Bucketed(s.Current().cells, p)
  }

  ghost predicate CoveredIn(s: State, c: CellId, q: Quota.Criterion)
    requires s.Valid()
  {
    forall p :: p in s.admitted && p.cell == c ==> CoveredPod(s, p, q)
  }

  ghost predicate Covered(s: State, q: Quota.Criterion)
    requires s.Valid()
  {
    forall p :: p in s.admitted ==> CoveredPod(s, p, q)
  }

  // An informer is sound when it reflects every admission older than the sync time it is compared with.
  ghost predicate SnapshotSound(env: Env, admitted: map<Pod, Time>, c: CellId, informer: Informer, q: Quota.Criterion)
    requires env.Valid() && |informer.sync| == env.shards(c)
  {
    forall p :: p in admitted && p.cell == c && admitted[p] < env.Horizon(informer.sync, p) ==>
      p.uid !in informer.view.Of(q)
  }

  // The bucket of the last admission is there, or the stored snapshot reflects that admission.
  ghost predicate Accounted(env: Env, s: State, p: Pod, q: Quota.Criterion)
    requires env.Valid() && s.Valid() && p in s.admitted
  {
    Recorded(s.Current().cells, p, s.admitted[p]) || (Outdated(env, s, p) && p.uid !in s.Snapshot(p.cell, q))
  }

  ghost predicate AccountedIn(env: Env, s: State, c: CellId, q: Quota.Criterion)
    requires env.Valid() && s.Valid()
  {
    forall p :: p in s.admitted && p.cell == c ==> Accounted(env, s, p, q)
  }

  // After an aggregator update every admission of the cell is accounted for exactly when the informer was sound.
  lemma AccountedIffSound(env: Env, s: State, s': State, c: CellId, q: Quota.Criterion)
    requires Inv(env, s) && AggregatorCommits(s, s', c)
    ensures s'.Valid() && |s.aggregators[c].informer.sync| == env.shards(c)
    ensures AccountedIn(env, s', c, q) <==> SnapshotSound(env, s.admitted, c, s.aggregators[c].informer, q)
  {
    CommitIsTimed(env, s, s', c);
    hide Inv;
    forall p | p in s.admitted && p.cell == c
      ensures var informer := s.aggregators[c].informer;
        Accounted(env, s', p, q) <==> (s.admitted[p] < env.Horizon(informer.sync, p) ==> p.uid !in informer.view.Of(q))
    {
      CommitRecords(env, s, s', c, p, s.admitted[p]);
      assert Timed(env, s', p);
      hide Recorded;
    }
  }

  lemma CommitIsTimed(env: Env, s: State, s': State, c: CellId)
    requires Inv(env, s) && AggregatorCommits(s, s', c)
    ensures env.Valid() && s.Valid() && s'.Valid() && |s.aggregators[c].informer.sync| == env.shards(c)
    ensures Aggregator.Shards(s.aggregators[c].informer.sync, env.hash).Valid()
    ensures c in s.aggregators && Sane(env, s.Current()) && s'.admitted == s.admitted
    ensures s'.snapshots == s.snapshots[c := s.aggregators[c].informer]
    ensures forall p :: p in s'.admitted ==> Timed(env, s', p)
  {
    AggregatorCommitsInv(env, s, s', c);
    assert AggregatorCallInv(env, s, c, s.aggregators[c]);
  }

  // What an aggregator can check before its update: a pod it sees that has a bucket has one that stays.
  ghost predicate Keeps(shards: Aggregator.Shards, buckets: seq<Bucket>, view: set<Uid>)
    requires shards.Valid()
  {
    view * Uids(buckets) <= Uids(Aggregator.Kept(shards, buckets))
  }

  // When no pod has two buckets, the check is that no bucket about to be dropped names a pod that is seen.
  lemma KeepsIffNoneNamed(shards: Aggregator.Shards, buckets: seq<Bucket>, view: set<Uid>)
    requires shards.Valid() && forall i, j :: 0 <= i < j < |buckets| ==> buckets[i].uid != buckets[j].uid
    ensures Keeps(shards, buckets, view) <==>
      forall b :: b in buckets && b.uid.Some? && !Aggregator.MayBeUnseen(shards, b) ==> b.uid.value !in view
  {
    var kept := Aggregator.Kept(shards, buckets);
    Aggregator.KeptIsUnseen(shards, buckets);
    hide Aggregator.Kept, Aggregator.MayBeUnseen, Aggregator.KeepsUnseen;
    forall b | b in buckets && b.uid.Some? ensures b.uid.value in Uids(kept) <==> Aggregator.MayBeUnseen(shards, b) {
      OneOfUid(buckets, kept, b);
    }
    forall u ensures u in Uids(buckets) <==> exists b :: b in buckets && b.uid == Some(u) {}
    hide Uids;
    if Keeps(shards, buckets, view) {
      forall b | b in buckets && b.uid.Some? && !Aggregator.MayBeUnseen(shards, b) ensures b.uid.value !in view {
        assert b.uid.value in Uids(buckets);
      }
    }
  }

  // A pod has a bucket among those kept exactly when its only bucket is kept.
  lemma OneOfUid(buckets: seq<Bucket>, kept: seq<Bucket>, b: Bucket)
    requires forall i, j :: 0 <= i < j < |buckets| ==> buckets[i].uid != buckets[j].uid
    requires (forall x :: x in kept ==> x in buckets) && b in buckets && b.uid.Some?
    ensures b.uid.value in Uids(kept) <==> b in kept
  {
    if b.uid.value in Uids(kept) {
      var other :| other in kept && other.uid == b.uid;
      assert other in buckets;
    }
  }

  // No admitted pod that has lost its buckets is seen.
  ghost predicate SeesNoneLost(s: State, c: CellId, view: set<Uid>)
    requires s.Valid()
  {
    forall p :: p in s.admitted && p.cell == c && p.uid in view ==> Bucketed(s.Current().cells, p)
  }

  // The buckets of a pod are in the history of the cell that an aggregator reads.
  lemma HistoryHas(env: Env, read: Ppr, p: Pod, time: Time)
    requires env.Valid() && Sane(env, read)
    ensures Recorded(read.cells, p, time) <==> RecordedIn(Aggregator.HistoryOf(read.cells, p.cell), p, time)
  {
    var cells, i := Aggregator.WithCell(read.cells, p.cell), Aggregator.CellIndex(read.cells, p.cell);
    WithCellIds(read.cells, p.cell);
    if Recorded(read.cells, p, time) {
      var j :| 0 <= j < |read.cells| && read.cells[j].id == p.cell && RecordedIn(read.cells[j].buckets, p, time);
      assert j == i;
    }
    if RecordedIn(cells[i].buckets, p, time) {
      assert i < |read.cells| && read.cells[i].id == p.cell;
    }
  }

  lemma HistoryProper(env: Env, read: Ppr, c: CellId, b: Bucket)
    requires env.Valid() && Sane(env, read) && b in Aggregator.HistoryOf(read.cells, c)
    ensures Proper(env.cfg, env.name, c, b)
  {
    WithCellIds(read.cells, c);
  }

  lemma HistoryRecords(env: Env, read: Ppr, sync: seq<Time>, p: Pod)
    requires env.Valid() && Sane(env, read) && |sync| == env.shards(p.cell)
    ensures var buckets := Aggregator.HistoryOf(read.cells, p.cell);
      && (p.uid in Uids(buckets) <==> Bucketed(read.cells, p))
      && (p.uid in Uids(Aggregator.Kept(Aggregator.Shards(sync, env.hash), buckets)) <==>
          exists time :: Recorded(read.cells, p, time) && env.Horizon(sync, p) <= time)
  {
    hide Sane, env.Horizon, Aggregator.Kept, Aggregator.HistoryOf, Proper, Recorded;
    var buckets, shards := Aggregator.HistoryOf(read.cells, p.cell), Aggregator.Shards(sync, env.hash);
    Aggregator.KeptExactly(shards, buckets);
    forall time ensures Recorded(read.cells, p, time) <==> RecordedIn(buckets, p, time) {
      HistoryHas(env, read, p, time);
    }
    forall b | b in buckets && b.uid == Some(p.uid)
      ensures Recorded(read.cells, p, b.start) && (shards.Obsolete(b) <==> b.start < env.Horizon(sync, p))
    {
      HistoryProper(env, read, p.cell, b);
      assert Records(b, p, b.start) && RecordedIn(buckets, p, b.start);
      DroppedIff(env, sync, p, b);
    }
  }

  lemma BucketedIsAdmitted(env: Env, s: State, p: Pod)
    requires Inv(env, s)
    ensures Bucketed(s.Current().cells, p) ==> p in s.admitted
  {
    if time :| Recorded(s.Current().cells, p, time) {
      RecordedHas(s.Current().cells, p, time);
      assert BucketsInv(s);
    }
  }

  // The same in terms of the states around an update.
  lemma CommitBuckets(env: Env, s: State, s': State, c: CellId, u: Uid)
    requires Inv(env, s) && AggregatorCommits(s, s', c)
    ensures s'.Valid() && |s.aggregators[c].informer.sync| == env.shards(c)
    ensures var buckets := Aggregator.HistoryOf(s.Current().cells, c);
      var kept := Aggregator.Kept(Aggregator.Shards(s.aggregators[c].informer.sync, env.hash), buckets);
      && (u in Uids(buckets) <==> Bucketed(s.Current().cells, Pod(c, u)))
      && (u in Uids(kept) <==> Bucketed(s'.Current().cells, Pod(c, u)))
    ensures Bucketed(s'.Current().cells, Pod(c, u)) ==> Bucketed(s.Current().cells, Pod(c, u))
    ensures Bucketed(s.Current().cells, Pod(c, u)) ==> Pod(c, u) in s.admitted
  {
    hide *;
    CommitIsTimed(env, s, s', c);
    var sync, p := s.aggregators[c].informer.sync, Pod(c, u);
    HistoryRecords(env, s.Current(), sync, p);
    BucketedIsAdmitted(env, s, p);
    CommitBucketed(env, s, s', c, p);
  }

  lemma CommitBucketed(env: Env, s: State, s': State, c: CellId, p: Pod)
    requires Inv(env, s) && AggregatorCommits(s, s', c) && p.cell == c
    ensures s'.Valid() && |s.aggregators[c].informer.sync| == env.shards(c)
    ensures var sync := s.aggregators[c].informer.sync;
      Bucketed(s'.Current().cells, p) <==>
        exists time :: Recorded(s.Current().cells, p, time) && env.Horizon(sync, p) <= time
    ensures Bucketed(s'.Current().cells, p) ==> Bucketed(s.Current().cells, p)
  {
    hide *;
    CommitIsTimed(env, s, s', c);
    var a, b, sync := s.Current().cells, s'.Current().cells, s.aggregators[c].informer.sync;
    forall time ensures Recorded(b, p, time) <==> Recorded(a, p, time) && env.Horizon(sync, p) <= time {
      CommitRecords(env, s, s', c, p, time);
    }
    BucketedFrom(a, b, p, env.Horizon(sync, p));
  }

  lemma BucketedFrom(a: seq<Cell>, b: seq<Cell>, p: Pod, from: Time)
    requires forall time :: Recorded(b, p, time) <==> Recorded(a, p, time) && from <= time
    ensures Bucketed(b, p) <==> exists time :: Recorded(a, p, time) && from <= time
    ensures Bucketed(b, p) ==> Bucketed(a, p)
  {
    hide Recorded;
  }

  // After an aggregator update the cell is covered exactly when the check held and no lost pod was seen.
  lemma CoveredIffChecked(env: Env, s: State, s': State, c: CellId, q: Quota.Criterion)
    requires Inv(env, s) && AggregatorCommits(s, s', c)
    ensures s'.Valid() && |s.aggregators[c].informer.sync| == env.shards(c)
    ensures var informer := s.aggregators[c].informer;
      CoveredIn(s', c, q) <==>
        && SeesNoneLost(s, c, informer.view.Of(q))
        && Keeps(Aggregator.Shards(informer.sync, env.hash), Aggregator.HistoryOf(s.Current().cells, c),
                 informer.view.Of(q))
  {
    hide *;
    CommitIsTimed(env, s, s', c);
    var informer, buckets := s.aggregators[c].informer, Aggregator.HistoryOf(s.Current().cells, c);
    var shards := Aggregator.Shards(informer.sync, env.hash);
    var kept := Aggregator.Kept(shards, buckets);
    forall p: Pod | p.cell == c
      ensures p.uid in Uids(buckets) <==> Bucketed(s.Current().cells, p)
      ensures p.uid in Uids(kept) <==> Bucketed(s'.Current().cells, p)
      ensures Bucketed(s'.Current().cells, p) ==> Bucketed(s.Current().cells, p)
      ensures Bucketed(s.Current().cells, p) ==> p in s.admitted
    {
      CommitBuckets(env, s, s', c, p.uid);
    }
    SnapshotIs(s', c, informer, q);
    KeepsIs(shards, buckets, informer.view.Of(q));
    CheckedPods(s, s', c, q, informer.view.Of(q), buckets, kept);
  }

  lemma SnapshotIs(s: State, c: CellId, informer: Informer, q: Quota.Criterion)
    requires c in s.snapshots && s.snapshots[c] == informer
    ensures s.Snapshot(c, q) == informer.view.Of(q)
  {
  }

  lemma KeepsIs(shards: Aggregator.Shards, buckets: seq<Bucket>, view: set<Uid>)
    requires shards.Valid()
    ensures Keeps(shards, buckets, view) <==> view * Uids(buckets) <= Uids(Aggregator.Kept(shards, buckets))
  {
  }

  lemma CheckedPods(s: State, s': State, c: CellId, q: Quota.Criterion, view: set<Uid>, buckets: seq<Bucket>,
                    kept: seq<Bucket>)
    requires s.Valid() && s'.Valid() && s'.Snapshot(c, q) == view && s'.admitted == s.admitted
    requires forall p: Pod :: p.cell == c ==>
      && (p.uid in Uids(buckets) <==> Bucketed(s.Current().cells, p))
      && (p.uid in Uids(kept) <==> Bucketed(s'.Current().cells, p))
      && (Bucketed(s'.Current().cells, p) ==> Bucketed(s.Current().cells, p))
      && (Bucketed(s.Current().cells, p) ==> p in s.admitted)
    ensures CoveredIn(s', c, q) <==> SeesNoneLost(s, c, view) && view * Uids(buckets) <= Uids(kept)
  {
    hide Uids, Bucketed, s'.Snapshot;
    if CoveredIn(s', c, q) {
      forall u | u in view * Uids(buckets) ensures u in Uids(kept) {
        assert Bucketed(s.Current().cells, Pod(c, u)) && CoveredPod(s', Pod(c, u), q);
      }
    }
  }

  // The informer does not show a pod again once an admission of the pod is older than the stored snapshot and the
  // snapshot does not show it.
  ghost predicate ShowsNoneAgain(env: Env, s: State, c: CellId, informer: Informer, q: Quota.Criterion)
    requires env.Valid()
  {
    forall p ::
      p in s.admitted && p.cell == c && Outdated(env, s, p) && p.uid !in s.Snapshot(c, q) ==>
        p.uid !in informer.view.Of(q)
  }

  lemma NoneLost(env: Env, s: State, c: CellId, informer: Informer, q: Quota.Criterion)
    requires env.Valid() && s.Valid() && Covered(s, q) && ShowsNoneAgain(env, s, c, informer, q)
    requires forall p :: p in s.admitted ==> Timed(env, s, p)
    ensures SeesNoneLost(s, c, informer.view.Of(q))
  {
    hide Recorded, Outdated;
    forall p | p in s.admitted && p.cell == c && p.uid in informer.view.Of(q) ensures Bucketed(s.Current().cells, p) {
      assert Timed(env, s, p) && CoveredPod(s, p, q);
    }
  }

  // The hypothesis on an informer that an aggregator commits: it is sound, or it shows no pod again and passes the
  // check.
  ghost predicate Reflects(env: Env, s: State, c: CellId, informer: Informer, q: Quota.Criterion)
    requires env.Valid() && s.Valid()
  {
    && |informer.sync| == env.shards(c)
    && (|| SnapshotSound(env, s.admitted, c, informer, q)
        || ( && ShowsNoneAgain(env, s, c, informer, q)
             && Keeps(Aggregator.Shards(informer.sync, env.hash), Aggregator.HistoryOf(s.Current().cells, c),
                      informer.view.Of(q))))
  }

  lemma AccountedIsCovered(env: Env, s: State, c: CellId, q: Quota.Criterion)
    requires env.Valid() && s.Valid() && AccountedIn(env, s, c, q)
    ensures CoveredIn(s, c, q)
  {
    hide Recorded, Outdated;
    forall p | p in s.admitted && p.cell == c ensures CoveredPod(s, p, q) {
      assert Accounted(env, s, p, q);
    }
  }

  // Every bucket of the cell is that of its pod's last admission: no pod has two, and clocks agree.
  ghost predicate LastAdmissions(s: State, c: CellId)
    requires s.Valid()
  {
    forall p, time :: p in s.admitted && p.cell == c && Recorded(s.Current().cells, p, time) ==> time == s.admitted[p]
  }

  // Then, given that no pod is shown again, an informer is sound exactly when it passes the check.
  lemma SoundIffChecked(env: Env, s: State, s': State, c: CellId, q: Quota.Criterion)
    requires Inv(env, s) && Covered(s, q) && AggregatorCommits(s, s', c) && LastAdmissions(s, c)
    requires ShowsNoneAgain(env, s, c, s.aggregators[c].informer, q)
    ensures |s.aggregators[c].informer.sync| == env.shards(c)
    ensures var informer := s.aggregators[c].informer;
      SnapshotSound(env, s.admitted, c, informer, q) <==>
        Keeps(Aggregator.Shards(informer.sync, env.hash), Aggregator.HistoryOf(s.Current().cells, c),
              informer.view.Of(q))
  {
    CommitIsTimed(env, s, s', c);
    NoneLost(env, s, c, s.aggregators[c].informer, q);
    AccountedIffSound(env, s, s', c, q);
    CoveredIffChecked(env, s, s', c, q);
    CoveredIsAccounted(env, s, s', c, q);
  }

  lemma CoveredIsAccounted(env: Env, s: State, s': State, c: CellId, q: Quota.Criterion)
    requires Inv(env, s) && AggregatorCommits(s, s', c) && LastAdmissions(s, c)
    ensures env.Valid() && s'.Valid() && (AccountedIn(env, s', c, q) <==> CoveredIn(s', c, q))
  {
    CommitIsTimed(env, s, s', c);
    forall p | p in s.admitted && p.cell == c ensures Accounted(env, s', p, q) <==> CoveredPod(s', p, q) {
      assert Timed(env, s', p);
      if time :| Recorded(s'.Current().cells, p, time) {
        CommitRecords(env, s, s', c, p, time);
      }
    }
  }

  lemma AggregatorCovers(env: Env, s: State, s': State, c: CellId, q: Quota.Criterion)
    requires Inv(env, s) && Covered(s, q) && AggregatorCommits(s, s', c)
    requires Reflects(env, s, c, s.aggregators[c].informer, q)
    ensures s'.Valid() && Covered(s', q)
  {
    CommitIsTimed(env, s, s', c);
    var informer := s.aggregators[c].informer;
    if SnapshotSound(env, s.admitted, c, informer, q) {
      AccountedIffSound(env, s, s', c, q);
      AccountedIsCovered(env, s', c, q);
    } else {
      CoveredIffChecked(env, s, s', c, q);
      NoneLost(env, s, c, informer, q);
    }
    hide Inv;
    OtherCells(env, s, s', c, q);
    hide CoveredPod;
    forall p | p in s'.admitted ensures CoveredPod(s', p, q) {
      assert p.cell == c || p.cell != c;
    }
  }

  // The other cells keep their snapshots and their buckets.
  lemma OtherCells(env: Env, s: State, s': State, c: CellId, q: Quota.Criterion)
    requires Inv(env, s) && Covered(s, q) && AggregatorCommits(s, s', c)
    ensures s'.Valid() && forall p :: p in s'.admitted && p.cell != c ==> CoveredPod(s', p, q)
  {
    CommitIsTimed(env, s, s', c);
    hide Inv, Timed, Sane, AggregatorCommits, Recorded, CoveredPod;
    forall p | p in s'.admitted && p.cell != c ensures CoveredPod(s', p, q) {
      forall time ensures Recorded(s.Current().cells, p, time) ==> Recorded(s'.Current().cells, p, time) {
        CommitRecords(env, s, s', c, p, time);
      }
      OtherPod(s, s', c, s.aggregators[c].informer, p, q);
    }
  }

  lemma OtherPod(s: State, s': State, c: CellId, informer: Informer, p: Pod, q: Quota.Criterion)
    requires s.Valid() && s'.Valid() && CoveredPod(s, p, q) && p.cell != c
    requires s'.snapshots == s.snapshots[c := informer]
    requires forall time :: Recorded(s.Current().cells, p, time) ==> Recorded(s'.Current().cells, p, time)
    ensures CoveredPod(s', p, q)
  {
    hide Recorded;
  }

  lemma WebhookCoversPod(s: State, s': State, call: WebhookCall, p: Pod, q: Quota.Criterion)
    requires s.Valid() && s'.Valid() && s'.Current() == call.written && s'.snapshots == s.snapshots
    requires if p in s.admitted then CoveredPod(s, p, q) else p in AdmittedBy(call)
    requires forall time :: Carries(s.Current(), call, p, time)
    ensures CoveredPod(s', p, q)
  {
    hide Recorded, AdmittedBy;
    assert Carries(s.Current(), call, p, call.now);
    if p !in AdmittedBy(call) && p.uid in s'.Snapshot(p.cell, q) {
      var time :| Recorded(s.Current().cells, p, time);
      assert Carries(s.Current(), call, p, time);
    }
  }

  lemma WebhookCovers(env: Env, s: State, s': State, id: nat, q: Quota.Criterion)
    requires Inv(env, s) && Covered(s, q) && WebhookCommits(s, s', id)
    ensures s'.Valid() && Covered(s', q)
  {
    var call := s.webhooks[id];
    assert WebhookComputes(env, s.Current(), call);
    WebhookEffect(env, s.Current(), call);
    hide Inv, WebhookComputes, Sane, Carries, CoveredPod, AdmittedBy, ExtendsCells, HasBucket;
    forall p | p in s'.admitted ensures CoveredPod(s', p, q) {
      WebhookCoversPod(s, s', call, p, q);
    }
  }

  lemma StillCovered(s: State, s': State, q: Quota.Criterion)
    requires s.Valid() && s'.Valid() && Covered(s, q) && s'.admitted == s.admitted && s'.snapshots == s.snapshots
    requires s'.Current().cells == s.Current().cells
    ensures Covered(s', q)
  {
    forall p | p in s'.admitted ensures CoveredPod(s', p, q) { assert CoveredPod(s, p, q); }
  }

  // Every aggregator update of the step meets the hypothesis.
  ghost predicate Reflecting(env: Env, s: State, s': State, q: Quota.Criterion)
    requires env.Valid() && s.Valid()
  {
    forall c :: AggregatorCommits(s, s', c) ==> Reflects(env, s, c, s.aggregators[c].informer, q)
  }

  lemma NextCovered(env: Env, s: State, s': State, q: Quota.Criterion)
    requires Inv(env, s) && Covered(s, q) && Next(env, s, s') && Reflecting(env, s, s', q)
    ensures s'.Valid() && Covered(s', q)
  {
    InvSane(env, s);
    hide *;
    if Stores(s, s') {
      StoringCovered(env, s, s', q);
    } else {
      QuietKeeps(env, s, s');
      assert s'.Valid() && s'.Current() == s.Current() by { SameHistory(s, s'); }
      StillCovered(s, s', q);
    }
  }

  lemma SameHistory(s: State, s': State)
    requires s.Valid() && s'.history == s.history
    ensures s'.Valid() && s'.Current() == s.Current()
  {
  }

  // A step that stores nothing leaves what coverage is about.
  lemma QuietKeeps(env: Env, s: State, s': State)
    requires env.Valid() && s.Valid() && Next(env, s, s') && !Stores(s, s')
    ensures s'.history == s.history && s'.admitted == s.admitted && s'.snapshots == s.snapshots
  {
    hide PodsChange, InformerAdvances, WebhookExecutes, WebhookEnds, AggregatorLists, AggregatorReads;
    hide AggregatorEnds, WebhookCommits, AggregatorCommits, SpecChanges;
    if Computes(env, s, s') {
      ComputingKeeps(env, s, s');
    } else {
      OthersKeep(s, s');
    }
  }

  lemma StoringCovered(env: Env, s: State, s': State, q: Quota.Criterion)
    requires Inv(env, s) && Covered(s, q) && Stores(s, s') && Reflecting(env, s, s', q)
    ensures s'.Valid() && Covered(s', q)
  {
    InvSane(env, s);
    hide Inv, Covered, Sane, Reflecting, AggregatorCommits, WebhookCommits, SpecChanges;
    if c :| AggregatorCommits(s, s', c) {
      ReflectingCommit(env, s, s', c, q);
      AggregatorCovers(env, s, s', c, q);
    } else if id :| WebhookCommits(s, s', id) {
      WebhookCovers(env, s, s', id, q);
    } else {
      var m :| SpecChanges(s, s', m);
      SpecCovers(s, s', m, q);
    }
  }

  lemma ReflectingCommit(env: Env, s: State, s': State, c: CellId, q: Quota.Criterion)
    requires env.Valid() && s.Valid() && Reflecting(env, s, s', q) && AggregatorCommits(s, s', c)
    ensures c in s.aggregators && Reflects(env, s, c, s.aggregators[c].informer, q)
  {
    hide Reflects;
  }

  lemma SpecCovers(s: State, s': State, minAvailable: int, q: Quota.Criterion)
    requires s.Valid() && Covered(s, q) && SpecChanges(s, s', minAvailable)
    ensures s'.Valid() && Covered(s', q)
  {
    hide Covered;
    StillCovered(s, s', q);
  }

  lemma InitCovered(env: Env, s: State, q: Quota.Criterion)
    requires Init(env, s)
    ensures Covered(s, q)
  {
  }

  // ----- safety -----

  // The pods of the cells in the list.
  ghost function InCells(pods: set<Pod>, cells: seq<Cell>): set<Pod> {
    set p | p in pods && HasCell(cells, p.cell)
  }

  lemma OneCell(env: Env, s: State, cell: Cell, q: Quota.Criterion)
    requires Inv(env, s) && Covered(s, q) && cell in s.Current().cells
    ensures CountOfStatus(cell.aggregation, q) - BucketsLag(cell.buckets) <=
      |set p | p in s.Unadmitted(q) && p.cell == cell.id|
  {
    var i :| 0 <= i < |s.Current().cells| && s.Current().cells[i] == cell;
    var snapshot, uids := s.Snapshot(cell.id, q), Uids(cell.buckets);
    var left := set p | p in s.Unadmitted(q) && p.cell == cell.id;
    assert CountsSnapshot(s, cell);
    ProperCounts(cell.buckets);
    BucketsLagIsAdmissions(cell.buckets);
    UidsBounded(cell.buckets);
    forall u | u in snapshot && u !in uids ensures Pod(cell.id, u) in left {
      var p := Pod(cell.id, u);
      if p in s.admitted {
        NotInSnapshot(env, s, i, p, q);
      }
    }
    var leftUids := set p | p in left :: p.uid;
    assert snapshot <= uids + leftUids by {
      forall u | u in snapshot && u !in uids ensures u in leftUids {
        assert Pod(cell.id, u) in left;
      }
    }
    CardinalityBound(snapshot, uids, leftUids);
    UidsInjective(left, cell.id);
  }

  // An admitted pod without a bucket is not in the snapshot its cell was counted from.
  lemma NotInSnapshot(env: Env, s: State, i: nat, p: Pod, q: Quota.Criterion)
    requires Inv(env, s) && Covered(s, q) && p in s.admitted
    requires i < |s.Current().cells| && s.Current().cells[i].id == p.cell
    ensures p.uid in Uids(s.Current().cells[i].buckets) || p.uid !in s.Snapshot(p.cell, q)
  {
    var cells := s.Current().cells;
    assert CoveredPod(s, p, q);
    if time :| Recorded(cells, p, time) {
      var j :| 0 <= j < |cells| && cells[j].id == p.cell && RecordedIn(cells[j].buckets, p, time);
      assert i == j;
    }
  }

  lemma CardinalityBound<T>(a: set<T>, b: set<T>, c: set<T>)
    requires a <= b + c
    ensures |a| <= |b| + |c|
  {
    SubsetSize(a, b + c);
    assert |b + c| == |b| + |c| - |b * c|;
  }

  lemma {:induction false} SubsetSize<T>(a: set<T>, b: set<T>)
    requires a <= b
    ensures |a| <= |b|
  {
    assert b == a + (b - a);
  }

  lemma {:induction false} UidsInjective(pods: set<Pod>, c: CellId)
    requires forall p :: p in pods ==> p.cell == c
    ensures |set p | p in pods :: p.uid| == |pods|
  {
    var uids := set p | p in pods :: p.uid;
    if pods == {} {
      assert uids == {};
    } else {
      var p :| p in pods;
      UidsInjective(pods - {p}, c);
      assert uids - {p.uid} == set q | q in pods - {p} :: q.uid;
    }
  }

  // The pods of one more cell.
  lemma InCellsSnoc(pods: set<Pod>, cells: seq<Cell>, n: nat)
    requires 0 < n <= |cells| && DistinctIds(cells)
    ensures |InCells(pods, cells[..n - 1])| + |set p | p in pods && p.cell == cells[n - 1].id|
      <= |InCells(pods, cells[..n])|
  {
    var rest, cell := cells[..n - 1], cells[n - 1];
    var own := set p | p in pods && p.cell == cell.id;
    var others := InCells(pods, rest);
    assert own !! others;
    forall p: Pod | p in own + others ensures HasCell(cells[..n], p.cell) {
      if p in own {
        assert cells[..n][n - 1].id == p.cell;
      } else {
        var j :| 0 <= j < |rest| && rest[j].id == p.cell;
        assert cells[..n][j].id == p.cell;
      }
    }
    assert own + others <= InCells(pods, cells[..n]);
    SubsetSize(own + others, InCells(pods, cells[..n]));
  }

  lemma {:induction false} CellsBound(env: Env, s: State, n: nat, q: Quota.Criterion)
    requires Inv(env, s) && Covered(s, q) && n <= |s.Current().cells|
    ensures var cells := s.Current().cells[..n];
      CountInCells(cells, q) - Lag(cells) <= |InCells(s.Unadmitted(q), cells)|
  {
    if n > 0 {
      var cells := s.Current().cells;
      CellsBound(env, s, n - 1, q);
      CountsSnoc(cells, q, n - 1);
      OneCell(env, s, cells[n - 1], q);
      InCellsSnoc(s.Unadmitted(q), cells, n);
    }
  }

  // How many pods a criterion can still count on: those it counts less the admissions that the counts do not reflect.
  // For availability that is the estimate of the summary.
  function Estimate(summary: Summary, q: Quota.Criterion): int {
    Quota.CountIn(summary, q) - (summary.available - summary.estimated)
  }

  // It never exceeds the number of pods that have the status and are not admitted for deletion.
  lemma EstimateIsSafe(env: Env, s: State, q: Quota.Criterion)
    requires Inv(env, s) && Covered(s, q)
    ensures Estimate(s.Current().summary, q) <= |s.Unadmitted(q)|
  {
    var cells := s.Current().cells;
    SummaryCounts(cells, q);
    CellsBound(env, s, |cells|, q);
    assert cells[..|cells|] == cells;
    SubsetSize(InCells(s.Unadmitted(q), cells), s.Unadmitted(q));
  }

  // The pods that the snapshots behind the cells show with status q.
  ghost function SeenIn(s: State, cells: seq<Cell>, q: Quota.Criterion): nat {
    if cells == [] then 0 else |s.Snapshot(cells[0].id, q)| + SeenIn(s, cells[1..], q)
  }

  lemma {:induction false} CountsAreSeen(s: State, cells: seq<Cell>, q: Quota.Criterion)
    requires forall i :: 0 <= i < |cells| ==> CountsSnapshot(s, cells[i])
    ensures CountInCells(cells, q) == SeenIn(s, cells, q)
  {
    if cells != [] {
      assert CountsSnapshot(s, cells[0]);
      CountsAreSeen(s, cells[1..], q);
    }
  }

  // From the pods to the quota: the count of each criterion in the stored summary, and in the tally that a webhook
  // makes of it, is the number of pods that the snapshots show with that status.
  lemma SummaryIsSeen(env: Env, s: State, q: Quota.Criterion)
    requires Inv(env, s)
    ensures var cells := s.Current().cells;
      && Quota.CountIn(s.Current().summary, q) == SeenIn(s, cells, q)
      && TallyOf(env.cfg, s.Current().minAvailable, cells).Count(q) == SeenIn(s, cells, q)
      && CountInCells(cells, q) == SeenIn(s, cells, q)
      && s.Current().summary.available - s.Current().summary.estimated == Lag(cells)
  {
    var cells, summary := s.Current().cells, s.Current().summary;
    CountsAreSeen(s, cells, q);
    SummaryCounts(cells, q);
    assert summary == SummaryOf(cells);
    hide Inv, SummaryOf, CountInCells, SeenIn, Lag;
    Quota.TallyMeans(s.Current().minAvailable, summary, env.cfg.maxConcurrentLag, q);
  }

  // From the pods to the answers: a webhook that read the current version answers each review by the number of pods
  // that the snapshots show with the status its criterion looks at, less those it lets go before.
  lemma AnswersFromPods(env: Env, s: State, call: WebhookCall, i: nat)
    requires Inv(env, s) && WebhookComputes(env, s.Current(), call) && i < |call.args|
    ensures |call.results| == |call.args|
    ensures var ppr, q := s.Current(), call.args[i].status.criterion;
      && AnsweredByCounts(env.cfg, ppr.minAvailable, ppr.cells, call.args, call.results, i)
      && CountInCells(ppr.cells, q) == SeenIn(s, ppr.cells, q)
  {
    InvSane(env, s);
    hide Inv, WebhookComputes, Decides, TallyOf, SeenIn, CountInCells, Lag, AnsweredByCounts, Permuted, Sane;
    var ppr, q := s.Current(), call.args[i].status.criterion;
    var counted := CountedBy(env, s, call);
    SummaryIsSeen(env, s, q);
    AnsweredExactly(env.cfg, ppr.minAvailable, counted, call.args, call.results, i);
    PermutedCounts(ppr.cells, counted, q);
    PermutedKeeps(ppr.cells, counted, AvailableOf, call.args[i]);
    SameAnswer(env.cfg, ppr.minAvailable, ppr.cells, counted, call.args, call.results, i);
  }

  lemma SameAnswer(cfg: Config, minAvailable: int, a: seq<Cell>, b: seq<Cell>, args: seq<Item>,
                   results: seq<ItemResult>, i: nat)
    requires i < |results| == |args| && AnsweredByCounts(cfg, minAvailable, b, args, results, i)
    requires CountInCells(a, args[i].status.criterion) == CountInCells(b, args[i].status.criterion)
    requires Lag(a) == Lag(b) && HasBucket(a, args[i]) == HasBucket(b, args[i])
    ensures AnsweredByCounts(cfg, minAvailable, a, args, results, i)
  {
  }

  // The cells that a call on the current version counts.
  lemma CountedBy(env: Env, s: State, call: WebhookCall) returns (counted: seq<Cell>)
    requires Inv(env, s) && WebhookComputes(env, s.Current(), call)
    ensures Decides(counted, TallyOf(env.cfg, s.Current().minAvailable, counted), call.args, call.results)
    ensures Permuted(s.Current().cells, counted) && |call.results| == |call.args|
  {
    InvSane(env, s);
    hide Inv;
    var extended;
    counted, extended :|
      && Round(env.cfg, s.Current(), call.args, call.now, counted, extended, call.written, call.results)
      && Within(env.cfg.compactThreshold, extended);
    hide Sane, Decides, TallyOf, HasBucket, AdmitAll, RefreshAll, SummaryOf;
    RoundEffect(env, s.Current(), call, counted, extended);
  }

  ghost predicate StepReflects(env: Env, run: seq<State>, i: nat, q: Quota.Criterion)
    requires 0 < i < |run|
  {
    env.Valid() && run[i - 1].Valid() ==> Reflecting(env, run[i - 1], run[i], q)
  }

  // A run in which every aggregator update meets the hypothesis on informers.
  ghost predicate ReflectingRun(env: Env, run: seq<State>, q: Quota.Criterion) {
    IsRun(env, run) && forall i :: 0 < i < |run| ==> StepReflects(env, run, i, q)
  }

  lemma ReflectingStep(env: Env, run: seq<State>, i: nat, q: Quota.Criterion)
    requires ReflectingRun(env, run, q) && 0 < i < |run|
    ensures env.Valid() && run[i - 1].Valid() && Next(env, run[i - 1], run[i])
    ensures Reflecting(env, run[i - 1], run[i], q)
  {
    RunStep(env, run, i);
    hide IsRun, Next, Reflecting;
    assert StepReflects(env, run, i, q);
  }

  lemma RunIsReflecting(env: Env, run: seq<State>, q: Quota.Criterion)
    requires ReflectingRun(env, run, q)
    ensures IsRun(env, run) && Init(env, run[0])
  {
  }

  lemma {:induction false} RunCovered(env: Env, run: seq<State>, i: nat, q: Quota.Criterion)
    requires ReflectingRun(env, run, q) && i < |run|
    ensures Inv(env, run[i]) && Covered(run[i], q)
  {
    hide *;
    RunIsReflecting(env, run, q);
    RunInv(env, run, i);
    if i == 0 {
      InitCovered(env, run[0], q);
    } else {
      ReflectingStep(env, run, i, q);
      RunCovered(env, run, i - 1, q);
      NextCovered(env, run[i - 1], run[i], q);
    }
  }

  // In every state of every such run, whatever the interleaving.
  lemma EveryRunIsSafe(env: Env, run: seq<State>, q: Quota.Criterion)
    requires ReflectingRun(env, run, q)
    ensures forall i :: 0 <= i < |run| ==>
      run[i].Valid() && Estimate(run[i].Current().summary, q) <= |run[i].Unadmitted(q)|
  {
    forall i | 0 <= i < |run|
      ensures run[i].Valid() && Estimate(run[i].Current().summary, q) <= |run[i].Unadmitted(q)|
    {
      RunCovered(env, run, i, q);
      EstimateIsSafe(env, run[i], q);
    }
  }

  // ----- what an admission leaves -----

  // Whoever reviews a pod that has status q and is not admitted says so, and judges by q whom it says to have it.
  ghost predicate Reviewed(s: State, call: WebhookCall, q: Quota.Criterion) {
    forall i :: 0 <= i < |call.args| ==>
      && (PodOf(call.args[i]) in s.Unadmitted(q) ==> Quota.HasStatus(call.args[i].status, q))
      && (Quota.HasStatus(call.args[i].status, q) ==>
          Quota.Judged(call.args[i].status.criterion) == Quota.Judged(q))
  }

  ghost predicate AllReviewed(s: State, s': State, q: Quota.Criterion)
    requires s.Valid()
  {
    forall id :: WebhookCommits(s, s', id) ==> Reviewed(s, s.webhooks[id], q)
  }

  // The pods reviewed at some positions.
  ghost function PodsAt(items: seq<Item>, positions: set<nat>): set<Pod>
    requires forall k :: k in positions ==> k < |items|
  {
    set k | k in positions :: PodOf(items[k])
  }

  lemma {:induction false} PodsAtBounded(items: seq<Item>, positions: set<nat>)
    requires forall k :: k in positions ==> k < |items|
    ensures |PodsAt(items, positions)| <= |positions|
    decreases |positions|
  {
    if positions == {} {
      assert PodsAt(items, positions) == {};
    } else {
      var k :| k in positions;
      PodsAtBounded(items, positions - {k});
      assert PodsAt(items, positions) == PodsAt(items, positions - {k}) + {PodOf(items[k])};
    }
  }

  // What the quota takes from the count of q, by position among the reviews without a bucket.
  ghost function TakenBy(env: Env, read: Ppr, call: WebhookCall, counted: seq<Cell>, q: Quota.Criterion): (r: set<nat>)
    ensures forall k :: k in r ==> k < |UndeterminedItems(counted, call.args)|
  {
    var items, t := UndeterminedItems(counted, call.args), TallyOf(env.cfg, read.minAvailable, counted);
    Quota.Taken(Statuses(items), VerdictsOf(counted, t, call.args), q, 0)
  }

  // An unadmitted pod that a call newly admits is among those.
  lemma NewlyAdmittedIsTaken(env: Env, s: State, call: WebhookCall, counted: seq<Cell>, q: Quota.Criterion, i: nat)
    requires s.Valid() && Reviewed(s, call, q)
    requires Decides(counted, TallyOf(env.cfg, s.Current().minAvailable, counted), call.args, call.results)
    requires i < |call.args| && call.results[i].Admits() && !HasBucket(counted, call.args[i])
    requires PodOf(call.args[i]) in s.Unadmitted(q)
    ensures PodOf(call.args[i]) in
      PodsAt(UndeterminedItems(counted, call.args), TakenBy(env, s.Current(), call, counted, q))
  {
    assert Quota.HasStatus(call.args[i].status, q);
    hide HasBucket, Decides, UndeterminedItems, VerdictsOf, TallyOf, Reviewed, Quota.HasStatus, s.Unadmitted;
    var t := TallyOf(env.cfg, s.Current().minAvailable, counted);
    AnswerOf(counted, t, call.args, call.results, i);
    var items, verdicts := UndeterminedItems(counted, call.args), VerdictsOf(counted, t, call.args);
    var k :| 0 <= k < |items| && items[k] == call.args[i] && call.results[i] == ToItemResult(verdicts[k]);
    assert Statuses(items)[k] == call.args[i].status;
    IsTaken(Statuses(items), verdicts, q, k);
  }

  lemma IsTaken(pods: seq<Quota.PodStatus>, verdicts: seq<Quota.Result>, q: Quota.Criterion, k: nat)
    requires k < |pods| == |verdicts| && Quota.HasStatus(pods[k], q) && ToItemResult(verdicts[k]).Admits()
    ensures k in Quota.Taken(pods, verdicts, q, 0)
  {
  }

  // The pods a call takes out of the unadmitted ones with status q are among those.
  lemma CommitTakes(env: Env, s: State, s': State, id: nat, counted: seq<Cell>, q: Quota.Criterion)
    requires Inv(env, s) && WebhookCommits(s, s', id) && Reviewed(s, s.webhooks[id], q)
    requires Permuted(s.Current().cells, counted)
    requires Decides(counted, TallyOf(env.cfg, s.Current().minAvailable, counted), s.webhooks[id].args,
                     s.webhooks[id].results)
    ensures var call := s.webhooks[id];
      s.Unadmitted(q) <= s'.Unadmitted(q) +
        PodsAt(UndeterminedItems(counted, call.args), TakenBy(env, s.Current(), call, counted, q))
  {
    hide Decides, HasBucket, CallsInv, TallyOf, TakenBy, Reviewed;
    var call := s.webhooks[id];
    forall p | p in s.Unadmitted(q) && p !in s'.Unadmitted(q)
      ensures p in PodsAt(UndeterminedItems(counted, call.args), TakenBy(env, s.Current(), call, counted, q))
    {
      assert p in AdmittedBy(call);
      var i :| 0 <= i < |call.args| && i < |call.results| && call.results[i].Admits() && PodOf(call.args[i]) == p;
      PermutedKeeps(s.Current().cells, counted, AvailableOf, call.args[i]);
      assert HasBucket(s.Current().cells, call.args[i]) ==> p in s.admitted;
      NewlyAdmittedIsTaken(env, s, call, counted, q, i);
    }
  }

  lemma CommitLeavesMinAvailable(env: Env, s: State, s': State, id: nat, q: Quota.Criterion)
    requires Inv(env, s) && Covered(s, q) && WebhookCommits(s, s', id) && Reviewed(s, s.webhooks[id], q)
    ensures |s'.Unadmitted(q)| >= |s.Unadmitted(q)| || |s'.Unadmitted(q)| >= s.Current().minAvailable
  {
    var call, read := s.webhooks[id], s.Current();
    assert WebhookComputes(env, read, call);
    hide CallsInv, Covered, Reviewed;
    var counted := CountedBy(env, s, call);
    CommitTakes(env, s, s', id, counted, q);
    var taken := TakenBy(env, read, call, counted, q);
    var pods := PodsAt(UndeterminedItems(counted, call.args), taken);
    CardinalityBound(s.Unadmitted(q), s'.Unadmitted(q), pods);
    PodsAtBounded(UndeterminedItems(counted, call.args), taken);
    QuotaLeaves(env, s, call, counted, q);
  }

  // When a call takes pods, the quota leaves MinAvailable of those it knows to have the status.
  lemma QuotaLeaves(env: Env, s: State, call: WebhookCall, counted: seq<Cell>, q: Quota.Criterion)
    requires Inv(env, s) && Covered(s, q) && Reviewed(s, call, q) && Permuted(s.Current().cells, counted)
    ensures var taken := TakenBy(env, s.Current(), call, counted, q);
      |taken| == 0 || |s.Unadmitted(q)| - |taken| >= s.Current().minAvailable
  {
    hide CallsInv;
    var summary, pods := SummaryOf(counted), Statuses(UndeterminedItems(counted, call.args));
    UndeterminedJudgedByOwn(s, call, counted, q);
    EstimateIsSafe(env, s, q);
    PermutedCounts(s.Current().cells, counted, q);
    SummaryCounts(s.Current().cells, q);
    SummaryCounts(counted, q);
    assert s.Current().summary == SummaryOf(s.Current().cells);
    hide Inv, Covered, Reviewed, SummaryOf, CountInCells, Lag;
    Quota.OwnKeepsFloor(s.Current().minAvailable, summary, env.cfg.maxConcurrentLag, pods, q);
  }

  lemma UndeterminedJudgedByOwn(s: State, call: WebhookCall, cells: seq<Cell>, q: Quota.Criterion)
    requires Reviewed(s, call, q)
    ensures Quota.JudgedByOwn(Statuses(UndeterminedItems(cells, call.args)), q)
  {
  }

  lemma NoCommitKeepsUnadmitted(env: Env, s: State, s': State, q: Quota.Criterion)
    requires env.Valid() && s.Valid() && Next(env, s, s') && !exists id :: WebhookCommits(s, s', id)
    ensures s.Unadmitted(q) <= s'.Unadmitted(q)
  {
    hide PodsChange, InformerAdvances, WebhookExecutes, WebhookEnds, AggregatorLists, AggregatorReads;
    hide AggregatorEnds;
    if Computes(env, s, s') {
      ComputingKeeps(env, s, s');
    } else if !Stores(s, s') {
      OthersKeep(s, s');
    }
  }

  // Every step of the protocol either keeps the number of available, unadmitted pods or leaves at
  // least MinAvailable of them.
  lemma StepLeavesMinAvailable(env: Env, s: State, s': State, q: Quota.Criterion)
    requires Inv(env, s) && Covered(s, q) && Next(env, s, s')
    requires AllReviewed(s, s', q)
    ensures |s'.Unadmitted(q)| >= |s.Unadmitted(q)| || |s'.Unadmitted(q)| >= s.Current().minAvailable
  {
    assert env.Valid() && s.Valid();
    hide Inv;
    if id :| WebhookCommits(s, s', id) {
      CommitLeavesMinAvailable(env, s, s', id, q);
    } else {
      NoCommitKeepsUnadmitted(env, s, s', q);
      SubsetSize(s.Unadmitted(q), s'.Unadmitted(q));
    }
  }

  ghost predicate StepReviewed(run: seq<State>, i: nat, q: Quota.Criterion)
    requires 0 < i < |run|
  {
    run[i - 1].Valid() ==> AllReviewed(run[i - 1], run[i], q)
  }

  // So along every such run the number of available, unadmitted pods only falls to MinAvailable or more.
  lemma EveryRunLeavesMinAvailable(env: Env, run: seq<State>, q: Quota.Criterion)
    requires ReflectingRun(env, run, q) && forall i :: 0 < i < |run| ==> StepReviewed(run, i, q)
    ensures forall i :: 0 < i < |run| ==>
      |run[i].Unadmitted(q)| >= |run[i - 1].Unadmitted(q)| || LeavesMinAvailable(run, i, q)
  {
    forall i | 0 < i < |run|
      ensures |run[i].Unadmitted(q)| >= |run[i - 1].Unadmitted(q)| || LeavesMinAvailable(run, i, q)
    {
      RunCovered(env, run, i - 1, q);
      RunStep(env, run, i);
      assert StepReviewed(run, i, q);
      hide Inv, Covered, Next, ReflectingRun, AllReviewed;
      StepLeavesMinAvailable(env, run[i - 1], run[i], q);
    }
  }

  ghost predicate LeavesMinAvailable(run: seq<State>, i: nat, q: Quota.Criterion)
    requires 0 < i < |run|
  {
    run[i - 1].Valid() && |run[i].Unadmitted(q)| >= run[i - 1].Current().minAvailable
  }
}
