/**
 The generator and its two finalizers (generator/generator/controller.go): one reconciliation of a workload and its
 PodProtectors, call by call, while others edit the same objects and calls fail with or without taking effect.
 */
module Generator {
  import opened Common

  type Name = string
  type Finalizers = seq<string>
  type Spec = string

  const FINALIZER := "podseidon.kubewharf.io/generator"

  // The workload. `required` is the protectors it requires, by name.
  datatype Source = Source(rv: nat, terminating: bool, finalizers: Finalizers, required: map<Name, Spec>)

  datatype Ppr = Ppr(rv: nat, terminating: bool, finalizers: Finalizers, spec: Spec)

  // The workload and the PodProtectors labeled with it, as stored; the clock numbers versions, and what was stored at
  // each is remembered.
  datatype State = State(
    source: Option<Source>, pprs: map<Name, Ppr>, clock: nat, sources: map<nat, Source>, protectors: map<nat, Ppr>)

  predicate HasFinalizer(finalizers: Finalizers) {
    FINALIZER in finalizers
  }

  predicate Protected(s: State) {
    s.source.Some? && HasFinalizer(s.source.value.finalizers)
  }

  // Every PodProtector that is not being deleted has a workload that cannot go away.
  ghost predicate Safe(s: State) {
    forall n :: n in s.pprs && !s.pprs[n].terminating ==> Protected(s)
  }

  // What was read at some time.
  predicate KnownSource(s: State, source: Source) {
    source.rv in s.sources && s.sources[source.rv] == source
  }

  predicate KnownPpr(s: State, ppr: Ppr) {
    ppr.rv in s.protectors && s.protectors[ppr.rv] == ppr
  }

  // An object that is being deleted is there for its finalizers. Versions are those of the objects.
  ghost predicate Stored(s: State) {
    && (s.source.Some? ==> KnownSource(s, s.source.value))
    && (s.source.Some? && s.source.value.terminating ==> s.source.value.finalizers != [])
    && (forall n :: n in s.pprs ==> KnownPpr(s, s.pprs[n]))
    && (forall n :: n in s.pprs && s.pprs[n].terminating ==> s.pprs[n].finalizers != [])
    && (forall v :: v in s.sources || v in s.protectors ==> v < s.clock)
  }

  ghost predicate Remembers(s: State, s': State) {
    && (forall v :: v in s.sources ==> v in s'.sources && s'.sources[v] == s.sources[v])
    && (forall v :: v in s.protectors ==> v in s'.protectors && s'.protectors[v] == s.protectors[v])
  }

  // The finalizers of everybody but the generator, as often as each occurs.
  function Others(finalizers: Finalizers): multiset<string> {
    multiset(finalizers)[FINALIZER := 0]
  }

  // Nobody else's finalizer is added or taken away, and nothing goes away that somebody else holds.
  ghost predicate SparesOthers(s: State, s': State) {
    && (s.source.Some? ==>
        Others(s.source.value.finalizers) == if s'.source.Some? then Others(s'.source.value.finalizers) else multiset{})
    && forall n :: n in s.pprs ==>
      Others(s.pprs[n].finalizers) == if n in s'.pprs then Others(s'.pprs[n].finalizers) else multiset{}
  }

  // ----- what the API server does -----

  // An object being deleted goes away with its last finalizer.
  function PutSource(s: State, source: Source): State {
    var next := source.(rv := s.clock);
    s.(source := if next.terminating && next.finalizers == [] then None else Some(next),
       sources := s.sources[s.clock := next], clock := s.clock + 1)
  }

  function PutPpr(s: State, n: Name, ppr: Ppr): State {
    var next := ppr.(rv := s.clock);
    s.(pprs := if next.terminating && next.finalizers == [] then s.pprs - {n} else s.pprs[n := next],
       protectors := s.protectors[s.clock := next], clock := s.clock + 1)
  }

  function DeletePpr(s: State, n: Name): State
    requires n in s.pprs
  {
    PutPpr(s, n, s.pprs[n].(terminating := true))
  }

  // ----- what others do -----

  datatype Action =
    | CreateSource(finalizers: Finalizers, required: map<Name, Spec>)
    | EditSource(finalizers: Finalizers, required: map<Name, Spec>)
    | DeleteSource(required: map<Name, Spec>)
    | RemovePpr(n: Name)
    | EditPpr(n: Name, finalizers: Finalizers, spec: Spec)

  // Nobody else adds or removes the finalizer of the generator, or creates PodProtectors for the workload.
  predicate Allowed(s: State, a: Action) {
    match a
    case CreateSource(f, _) => s.source == None && !HasFinalizer(f)
    case EditSource(f, _) => s.source.Some? && HasFinalizer(f) == HasFinalizer(s.source.value.finalizers)
    case DeleteSource(_) => s.source.Some?
    case RemovePpr(n) => n in s.pprs
    case EditPpr(n, f, _) => n in s.pprs && HasFinalizer(f) == HasFinalizer(s.pprs[n].finalizers)
  }

  function Act(s: State, a: Action): State
    requires Allowed(s, a)
  {
    match a
    case CreateSource(f, required) => PutSource(s, Source(0, false, f, required))
    case EditSource(f, required) => PutSource(s, s.source.value.(finalizers := f, required := required))
    case DeleteSource(required) => PutSource(s, s.source.value.(terminating := true, required := required))
    case RemovePpr(n) => DeletePpr(s, n)
    case EditPpr(n, f, spec) => PutPpr(s, n, s.pprs[n].(finalizers := f, spec := spec))
  }

  // What a reconciliation can rely on while others act: no PodProtector appears or stops being deleted, and the
  // workload keeps the finalizer.
  ghost predicate Relied(s: State, s': State) {
    && (forall n :: n in s'.pprs ==> n in s.pprs && (s.pprs[n].terminating ==> s'.pprs[n].terminating))
    && (Protected(s) ==> Protected(s'))
    && Remembers(s, s')
  }

  lemma ActRelied(s: State, a: Action)
    requires Allowed(s, a) && Stored(s)
    ensures Relied(s, Act(s, a)) && Stored(Act(s, a))
  {
  }

  lemma ReliedTwice(s: State, s': State, s'': State)
    requires Relied(s, s') && Relied(s', s'')
    ensures Relied(s, s'')
  {
  }

  lemma ReliedKeeps(s: State, s': State, source: Source)
    requires Relied(s, s')
    ensures Protected(s) ==> Protected(s')
    ensures KnownSource(s, source) ==> KnownSource(s', source)
  {
  }

  lemma ReliedSafe(s: State, s': State)
    requires Relied(s, s')
    ensures Safe(s) ==> Safe(s')
  {
  }

  // ----- the cluster a reconciliation talks to -----

  datatype Fate = Succeeds | FailsApplied | FailsLost

  class Cluster {
    var s: State
    // Every state so far: where a crash at that point would leave things.
    ghost var trace: seq<State>
    // The positions in it of the states that the generator's own calls led to.
    ghost var own: set<nat>
    // Whether nobody interferes and no call fails.
    const quiet: bool

    ghost predicate Valid()
      reads this
    {
      trace != [] && trace[|trace| - 1] == s && Stored(s) && OwnSpare()
    }

    ghost predicate OwnSpare()
      reads this
    {
      forall i :: i in own ==> 0 < i < |trace| && SparesOthers(trace[i - 1], trace[i])
    }

    ghost predicate AllSafe()
      reads this
    {
      forall i :: 0 <= i < |trace| ==> Safe(trace[i])
    }

    constructor (s: State, quiet: bool)
      requires Stored(s)
      ensures Valid() && this.s == s && trace == [s] && this.quiet == quiet
    {
      this.s, trace, own, this.quiet := s, [s], {}, quiet;
    }

    method Set(s': State, ghost byGenerator: bool)
      requires Valid() && Stored(s') && (byGenerator ==> SparesOthers(s, s'))
      modifies this
      ensures Valid() && s == s' && old(trace) <= trace && (old(AllSafe()) && Safe(s') ==> AllSafe())
    {
      hide SparesOthers, Stored;
      own := if byGenerator then own + {|trace|} else own;
      s := s';
      trace := trace + [s'];
    }

    // Any number of actions by others.
    method Interfere()
      requires Valid()
      modifies this
      ensures Valid() && old(trace) <= trace && (old(AllSafe()) ==> AllSafe())
      ensures Relied(old(s), s) && (quiet ==> s == old(s))
    {
      var n: int := *;
      if quiet || n < 0 {
        n := 0;
      }
      for i := 0 to n
        invariant Valid() && old(trace) <= trace && (old(AllSafe()) ==> AllSafe())
        invariant Relied(old(s), s) && (quiet ==> s == old(s))
      {
        var a: Action := *;
        if Allowed(s, a) && !quiet {
          ActRelied(s, a);
          ReliedSafe(s, Act(s, a));
          hide Act, Allowed, Safe, Stored, Relied, OwnSpare, AllSafe;
          ReliedTwice(old(s), s, Act(s, a));
          Set(Act(s, a), false);
        }
      }
    }

    method Decide() returns (fate: Fate)
      ensures quiet ==> fate == Succeeds
    {
      fate := *;
      if quiet {
        fate := Succeeds;
      }
    }
  
    // Replaces the finalizers of the workload, if it is still at the version of the local copy.
    method UpdateSource(local: Source, finalizers: Finalizers) returns (ok: bool, updated: Source)
      requires Valid() && KnownSource(s, local) && Others(finalizers) == Others(local.finalizers)
      modifies this
      ensures Valid() && old(trace) <= trace
      ensures old(AllSafe()) && (HasFinalizer(finalizers) || AllTerminating(old(s))) ==> AllSafe()
      ensures OnlyShrinks(old(s), s) && (HasFinalizer(finalizers) ==> Relied(old(s), s))
      ensures ok && HasFinalizer(finalizers) ==> Protected(s)
      ensures ok ==> updated.finalizers == finalizers && KnownSource(s, updated)
      ensures quiet && old(s).source == Some(local) ==>
        var stored := local.(finalizers := finalizers);
        ok && s == PutSource(old(s), stored) && updated == stored.(rv := old(s).clock)
    {
      updated := local;
      Interfere();
      hide Stored, SparesOthers, AllTerminating, Safe, Relied, Remembers, OnlyShrinks, KnownSource, Others, PutSource;
      ReliedShrinks(old(s), s);
      var fate := Decide();
      if fate == FailsLost || s.source == None || s.source.value.rv != local.rv {
        return false, local;
      }
      SameVersion(old(s), s, local);
      var stored := local.(finalizers := finalizers);
      PutSourceEffect(old(s), s, stored);
      updated := stored.(rv := s.clock);
      Set(PutSource(s, stored), true);
      ok := fate == Succeeds;
    }

    // Creates a PodProtector with the finalizer.
    method CreatePpr(n: Name, spec: Spec) returns (ok: bool)
      requires Valid() && Protected(s)
      modifies this
      ensures Valid() && old(trace) <= trace && (old(AllSafe()) ==> AllSafe())
      ensures Protected(s) && s.pprs.Keys <= old(s).pprs.Keys + {n} && Remembers(old(s), s)
      ensures forall m ::
        m in s.pprs && m in old(s).pprs && old(s).pprs[m].terminating && m != n ==> s.pprs[m].terminating
      ensures quiet ==> s.source == old(s).source
      ensures quiet && n !in old(s).pprs ==> ok && s == PutPpr(old(s), n, Ppr(0, false, [FINALIZER], spec))
      ensures quiet && n in old(s).pprs ==> !ok && s == old(s)
    {
      Interfere();
      var fate := Decide();
      if fate == FailsLost || n in s.pprs {
        return false;
      }
      PutPprKeeps(s, n, Ppr(0, false, [FINALIZER], spec));
      hide Stored, SparesOthers;
      Set(PutPpr(s, n, Ppr(0, false, [FINALIZER], spec)), true);
      ok := fate == Succeeds;
    }

    // Replaces the finalizers and the spec of a PodProtector, if it is still at the version of the local copy.
    method UpdatePpr(n: Name, local: Ppr, finalizers: Finalizers, spec: Spec) returns (ok: bool, updated: Ppr)
      requires Valid() && KnownPpr(s, local) && Others(finalizers) == Others(local.finalizers)
      modifies this
      ensures Valid() && old(trace) <= trace && (old(AllSafe()) ==> AllSafe()) && Relied(old(s), s)
      ensures ok && updated.terminating ==> Dropped(s, n)
      ensures quiet ==> s.source == old(s).source
      ensures quiet && n in old(s).pprs && old(s).pprs[n] == local ==>
        var stored := local.(finalizers := finalizers, spec := spec);
        ok && s == PutPpr(old(s), n, stored) && updated == stored.(rv := old(s).clock)
    {
      updated := local;
      Interfere();
      hide Stored, SparesOthers, Safe, Relied, Remembers, KnownPpr, Others, PutPpr, Dropped;
      var fate := Decide();
      if fate == FailsLost || n !in s.pprs || s.pprs[n].rv != local.rv {
        return false, local;
      }
      SamePprVersion(old(s), s, n, local);
      var stored := local.(finalizers := finalizers, spec := spec);
      updated := stored.(rv := s.clock);
      PutPprEffect(old(s), s, n, stored);
      Set(PutPpr(s, n, stored), true);
      ok := fate == Succeeds;
    }

    method RequestDelete(n: Name) returns (ok: bool)
      requires Valid()
      modifies this
      ensures Valid() && old(trace) <= trace && (old(AllSafe()) ==> AllSafe()) && Relied(old(s), s)
      ensures ok ==> Dropped(s, n)
      ensures quiet ==> s.source == old(s).source
      ensures quiet && n in old(s).pprs ==> ok && s == DeletePpr(old(s), n)
    {
      Interfere();
      hide Stored, SparesOthers, Safe, Relied, Remembers, KnownPpr, Others, PutPpr, Dropped;
      var fate := Decide();
      if fate == FailsLost || n !in s.pprs {
        return false;
      }
      PutPprEffect(old(s), s, n, s.pprs[n].(terminating := true));
      Set(DeletePpr(s, n), true);
      ok := fate == Succeeds;
    }
  }

  // A local copy at the version of the stored object is that object.
  lemma SameVersion(s0: State, s: State, local: Source)
    requires Stored(s) && Relied(s0, s) && KnownSource(s0, local) && s.source.Some? && s.source.value.rv == local.rv
    ensures s.source == Some(local)
  {
  }

  lemma SamePprVersion(s0: State, s: State, n: Name, local: Ppr)
    requires Stored(s) && Relied(s0, s) && KnownPpr(s0, local) && n in s.pprs && s.pprs[n].rv == local.rv
    ensures s.pprs[n] == local
  {
  }

  lemma ReliedShrinks(s0: State, s: State)
    requires Relied(s0, s)
    ensures OnlyShrinks(s0, s)
  {
  }

  // The update of the workload after others have acted.
  lemma PutSourceEffect(s0: State, s: State, source: Source)
    requires Stored(s) && Relied(s0, s)
    requires s.source.Some? && Others(source.finalizers) == Others(s.source.value.finalizers)
    ensures var s' := PutSource(s, source);
      && Stored(s') && SparesOthers(s, s') && OnlyShrinks(s0, s') && KnownSource(s', source.(rv := s.clock))
      && (HasFinalizer(source.finalizers) ==> Relied(s0, s') && Protected(s'))
      && (HasFinalizer(source.finalizers) || AllTerminating(s0) ==> Safe(s'))
  {
    if AllTerminating(s0) {
      forall n ensures Dropped(s, n) { assert Dropped(s0, n); }
    }
    PutSafely(s, source);
  }

  // The update of a PodProtector after others have acted.
  lemma PutPprEffect(s0: State, s: State, n: Name, ppr: Ppr)
    requires Stored(s) && Relied(s0, s) && n in s.pprs && (s.pprs[n].terminating ==> ppr.terminating)
    requires Others(ppr.finalizers) == Others(s.pprs[n].finalizers)
    ensures var s' := PutPpr(s, n, ppr);
      && Stored(s') && SparesOthers(s, s') && Relied(s0, s') && (Safe(s) ==> Safe(s')) && s'.source == s.source
      && (ppr.terminating ==> Dropped(s', n))
  {
    PutPprKeeps(s, n, ppr);
  }

  lemma PutPprKeeps(s: State, n: Name, ppr: Ppr)
    requires Stored(s) && (n in s.pprs ==> Others(ppr.finalizers) == Others(s.pprs[n].finalizers))
    ensures Stored(PutPpr(s, n, ppr)) && SparesOthers(s, PutPpr(s, n, ppr)) && Remembers(s, PutPpr(s, n, ppr))
  {
  }

  lemma PutSafely(s: State, source: Source)
    ensures HasFinalizer(source.finalizers) || AllTerminating(s) ==> Safe(PutSource(s, source))
  {
    if AllTerminating(s) {
      forall n | n in s.pprs ensures s.pprs[n].terminating { assert Dropped(s, n); }
    }
  }

  predicate Dropped(s: State, n: Name) {
    n in s.pprs ==> s.pprs[n].terminating
  }

  ghost predicate AllTerminating(s: State) {
    forall n :: Dropped(s, n)
  }

  // No PodProtector appears or stops being deleted.
  ghost predicate OnlyShrinks(s: State, s': State) {
    forall n :: n in s'.pprs ==> n in s.pprs && (s.pprs[n].terminating ==> s'.pprs[n].terminating)
  }

  // ----- one reconciliation -----

  // util.FindInSlice and util.SwapRemove on finalizers.
  function Find(finalizers: Finalizers): (i: int)
    ensures if HasFinalizer(finalizers) then 0 <= i < |finalizers| && finalizers[i] == FINALIZER else i == -1
  {
    if finalizers == [] then -1
    else if finalizers[0] == FINALIZER then 0
    else
      var i := Find(finalizers[1..]);
      if i == -1 then -1 else i + 1
  }

  function SwapRemoved(finalizers: Finalizers, i: nat): Finalizers
    requires i < |finalizers|
  {
    finalizers[i := finalizers[|finalizers| - 1]][..|finalizers| - 1]
  }

  lemma SwapRemovedOne(finalizers: Finalizers, i: nat)
    requires i < |finalizers|
    ensures multiset(SwapRemoved(finalizers, i)) == multiset(finalizers) - multiset{finalizers[i]}
    ensures finalizers[i] == FINALIZER ==> Others(SwapRemoved(finalizers, i)) == Others(finalizers)
  {
    var last := |finalizers| - 1;
    var swapped := finalizers[i := finalizers[last]];
    MultisetOfUpdate(finalizers, i, finalizers[last]);
    assert swapped == swapped[..last] + [finalizers[last]];
    assert multiset(swapped) == multiset(swapped[..last]) + multiset{finalizers[last]};
    var rest, expected := multiset(swapped[..last]), multiset(finalizers) - multiset{finalizers[i]};
    forall x ensures rest[x] == expected[x] {
      assert multiset(swapped)[x] == rest[x] + multiset{finalizers[last]}[x];
    }
  }

  // After an attempt to add the finalizer: one more of it if there was none and the workload is not being deleted, and
  // else no change.
  ghost predicate SourceWith(before: Source, after: Option<Source>) {
    if FINALIZER in before.finalizers || before.terminating then after == Some(before)
    else
      && after.Some? && !after.value.terminating && after.value.required == before.required
      && multiset(after.value.finalizers) == multiset(before.finalizers) + multiset{FINALIZER}
  }

  // After its removal: one less of it, and gone if that was the last finalizer of a workload being deleted.
  ghost predicate SourceWithout(before: Source, after: Option<Source>) {
    var rest := multiset(before.finalizers) - multiset{FINALIZER};
    if FINALIZER !in before.finalizers then after == Some(before)
    else if before.terminating && rest == multiset{} then after == None
    else
      && after.Some? && after.value.terminating == before.terminating && after.value.required == before.required
      && multiset(after.value.finalizers) == rest
  }

  datatype EnsureResult = Ensured | NoFinalizerInTerminatingSource | UpdateFailed

  class Reconciler {
    const cluster: Cluster
    var source: Source              // the local copy
    var needsRemoval: bool          // whether the finalizer of the workload is to be removed in the end

    // The local copy has the finalizer only if the workload does; in a quiet cluster it is the workload.
    ghost predicate Valid()
      reads this, cluster
    {
      && cluster.Valid() && KnownSource(cluster.s, source)
      && (HasFinalizer(source.finalizers) ==> Protected(cluster.s))
      && (cluster.quiet ==> cluster.s.source == Some(source))
    }

    constructor (cluster: Cluster, source: Source)
      requires cluster.Valid() && KnownSource(cluster.s, source)
      requires HasFinalizer(source.finalizers) ==> Protected(cluster.s)
      requires cluster.quiet ==> cluster.s.source == Some(source)
      ensures Valid() && this.cluster == cluster && this.source == source && needsRemoval
    {
      this.cluster, this.source, this.needsRemoval := cluster, source, true;
    }

    // Whether the finalizer is missing and cannot be added.
    predicate Blocked()
      reads this
    {
      source.terminating && !HasFinalizer(source.finalizers)
    }

    method EnsureSourceFinalizer() returns (result: EnsureResult)
      requires Valid()
      modifies this, cluster
      ensures old(cluster.AllSafe()) ==> cluster.AllSafe()
      ensures Valid() && old(cluster.trace) <= cluster.trace && !needsRemoval
      ensures Relied(old(cluster.s), cluster.s)
      ensures result == Ensured ==> HasFinalizer(source.finalizers)
      ensures old(Blocked()) <==> result == NoFinalizerInTerminatingSource
      ensures cluster.quiet ==> result != UpdateFailed && cluster.s.pprs == old(cluster.s.pprs)
      ensures cluster.quiet ==> source.terminating == old(source.terminating)
      ensures result == NoFinalizerInTerminatingSource ==> source == old(source) && cluster.s == old(cluster.s)
      ensures result == Ensured ==>
        multiset(source.finalizers) == multiset(old(source.finalizers)) +
          if FINALIZER in old(source.finalizers) then multiset{} else multiset{FINALIZER}
      ensures result != Ensured ==> source == old(source)
      ensures cluster.quiet ==> SourceWith(old(source), cluster.s.source)
    {
      needsRemoval := false;
      if Find(source.finalizers) != -1 {
        return Ensured;
      }
      if source.terminating {
        return NoFinalizerInTerminatingSource;
      }
      var ok, updated := cluster.UpdateSource(source, source.finalizers + [FINALIZER]);
      if !ok {
        return UpdateFailed;
      }
      source := updated;
      return Ensured;
    }
  
    method CreateProtector(n: Name, spec: Spec) returns (ok: bool)
      requires Valid()
      modifies this, cluster
      ensures old(cluster.AllSafe()) ==> cluster.AllSafe()
      ensures Valid() && old(cluster.trace) <= cluster.trace && !needsRemoval
      ensures ok ==> Blocked() || HasFinalizer(source.finalizers)
      ensures cluster.s.pprs.Keys <= old(cluster.s).pprs.Keys + {n}
      ensures forall m :: m != n && Dropped(old(cluster.s), m) ==> Dropped(cluster.s, m)
      ensures cluster.quiet && n !in old(cluster.s).pprs ==>
        ok && Created(old(cluster.s).pprs, cluster.s.pprs, n, spec, old(Blocked()))
      ensures cluster.quiet && n in old(cluster.s).pprs ==>
        (ok <==> old(Blocked())) && cluster.s.pprs == old(cluster.s).pprs
      ensures cluster.quiet ==> Blocked() == old(Blocked()) && SourceWith(old(source), cluster.s.source)
      ensures Remembers(old(cluster.s), cluster.s)
    {
      var result := EnsureSourceFinalizer();
      if result == NoFinalizerInTerminatingSource {
        return true;
      }
      if result == UpdateFailed {
        return false;
      }
      ok := cluster.CreatePpr(n, spec);
    }

    method SyncProtector(n: Name, current: Ppr, spec: Spec) returns (ok: bool)
      requires Valid() && KnownPpr(cluster.s, current)
      modifies this, cluster
      ensures old(cluster.AllSafe()) ==> cluster.AllSafe()
      ensures Valid() && old(cluster.trace) <= cluster.trace && !needsRemoval
      ensures Relied(old(cluster.s), cluster.s) && (ok ==> HasFinalizer(source.finalizers))
      ensures cluster.quiet && n in old(cluster.s).pprs && old(cluster.s).pprs[n] == current && ok ==>
        !old(Blocked()) && Synced(old(cluster.s).pprs, cluster.s.pprs, n, spec)
      ensures cluster.quiet && n in old(cluster.s).pprs && old(cluster.s).pprs[n] == current ==>
        (ok <==> !old(Blocked()))
      ensures cluster.quiet ==> Blocked() == old(Blocked()) && SourceWith(old(source), cluster.s.source)
    {
      ghost var s := cluster.s;
      var result := EnsureSourceFinalizer();
      if result != Ensured {
        return false;
      }
      if cluster.quiet && n in s.pprs && s.pprs[n] == current {
        PutSynced(cluster.s, n, spec);
      }
      hide Synced, PutPpr, SourceWith, Relied, KnownPpr, KnownSource, Stored, cluster.OwnSpare, cluster.AllSafe;
      if current.spec == spec {
        return true;
      }
      var updated;
      ghost var s1, local := cluster.s, source;
      ok, updated := cluster.UpdatePpr(n, current, current.finalizers, spec);
      ReliedTwice(s, s1, cluster.s);
      ReliedKeeps(s1, cluster.s, local);
    }

    method DeleteProtector(n: Name, current: Ppr) returns (ok: bool)
      requires Valid() && KnownPpr(cluster.s, current) && (current.terminating ==> Dropped(cluster.s, n))
      modifies this, cluster
      ensures old(cluster.AllSafe()) ==> cluster.AllSafe()
      ensures Valid() && old(cluster.trace) <= cluster.trace
      ensures Relied(old(cluster.s), cluster.s) && source == old(source)
      ensures needsRemoval == (ok && old(needsRemoval))
      ensures ok ==> Dropped(cluster.s, n)
      ensures cluster.quiet && n in old(cluster.s).pprs && old(cluster.s).pprs[n] == current ==>
        ok && OthersKept(old(cluster.s).pprs, cluster.s.pprs, n) && TakenOff(current, cluster.s.pprs, n)
    {
      var requiresSourceFinalizer := true;
      ok := DeletePprCalls(n, current);
      if ok {
        requiresSourceFinalizer := false;
      }
      if requiresSourceFinalizer {
        needsRemoval := false;
      }
    }

    // The calls of deleteProtector, whose deferred function is above.
    method DeletePprCalls(n: Name, current: Ppr) returns (ok: bool)
      requires Valid() && KnownPpr(cluster.s, current) && (current.terminating ==> Dropped(cluster.s, n))
      modifies cluster
      ensures old(cluster.AllSafe()) ==> cluster.AllSafe()
      ensures Valid() && old(cluster.trace) <= cluster.trace && Relied(old(cluster.s), cluster.s)
      ensures ok ==> Dropped(cluster.s, n)
      ensures cluster.quiet && n in old(cluster.s).pprs && old(cluster.s).pprs[n] == current ==>
        ok && OthersKept(old(cluster.s).pprs, cluster.s.pprs, n) && TakenOff(current, cluster.s.pprs, n)
    {
      hide HalfTaken, TakenOff, Relied, KnownPpr, Dropped, OthersKept, Stored;
      ghost var s0 := cluster.s;
      var currentPpr;
      ok, currentPpr := RemovePprFinalizer(n, current);
      if !ok {
        return;
      }
      ghost var s1 := cluster.s;
      if cluster.quiet && n in s0.pprs && s0.pprs[n] == current {
        HalfThenDeleted(s0, s1, n, current, currentPpr);
      }
      if !currentPpr.terminating {
        ok := cluster.RequestDelete(n);
        ReliedTwice(s0, s1, cluster.s);
        ReliedKeeps(s1, cluster.s, source);
      }
    }

    // The first of them: one occurrence of the finalizer is taken off, if there is one.
    method RemovePprFinalizer(n: Name, current: Ppr) returns (ok: bool, currentPpr: Ppr)
      requires Valid() && KnownPpr(cluster.s, current) && (current.terminating ==> Dropped(cluster.s, n))
      modifies cluster
      ensures old(cluster.AllSafe()) ==> cluster.AllSafe()
      ensures Valid() && old(cluster.trace) <= cluster.trace && Relied(old(cluster.s), cluster.s)
      ensures ok && currentPpr.terminating ==> Dropped(cluster.s, n)
      ensures cluster.quiet && n in old(cluster.s).pprs && old(cluster.s).pprs[n] == current ==>
        ok && HalfTaken(old(cluster.s), cluster.s, n, current, currentPpr)
    {
      var toDelete := Find(current.finalizers);
      if toDelete == -1 {
        return true, current;
      }
      var finalizers := SwapRemoved(current.finalizers, toDelete);
      ghost var s := cluster.s;
      SwapRemovedOne(current.finalizers, toDelete);
      hide HalfTaken, Relied, KnownPpr, Dropped, Stored, PutPpr, KnownSource, SwapRemoved, Others;
      if n in s.pprs && s.pprs[n] == current {
        UpdatedIsHalf(s, n, current, finalizers);
      }
      ok, currentPpr := cluster.UpdatePpr(n, current, finalizers, current.spec);
      ReliedKeeps(s, cluster.s, source);
    }

    method RemoveSourceFinalizer() returns (ok: bool)
      requires Valid()
      modifies this, cluster
      ensures old(cluster.AllSafe()) ==>
        AllTerminating(old(cluster.s)) || multiset(old(source.finalizers))[FINALIZER] > 1 ==> cluster.AllSafe()
      ensures cluster.Valid() && old(cluster.trace) <= cluster.trace && OnlyShrinks(old(cluster.s), cluster.s)
      ensures cluster.quiet ==> ok && cluster.s.pprs == old(cluster.s).pprs
      ensures cluster.quiet ==> SourceWithout(old(source), cluster.s.source)
      ensures ok ==> multiset(source.finalizers) == multiset(old(source.finalizers)) - multiset{FINALIZER}
    {
      var toDelete := Find(source.finalizers);
      if toDelete == -1 {
        return true;
      }
      var finalizers := SwapRemoved(source.finalizers, toDelete);
      SwapRemovedOne(source.finalizers, toDelete);
      PutWithout(cluster.s, source, finalizers);
      hide SourceWithout, SwapRemoved, Others, PutSource, OnlyShrinks, KnownSource, Relied, AllTerminating;
      var updated;
      ok, updated := cluster.UpdateSource(source, finalizers);
      if ok {
        source := updated;
      }
    }
  }

  ghost predicate OthersKept(pprs: map<Name, Ppr>, pprs': map<Name, Ppr>, n: Name) {
    forall m :: m != n ==> (m in pprs' <==> m in pprs) && (m in pprs ==> pprs'[m] == pprs[m])
  }

  // A PodProtector that is not required any more: one less of the finalizer, being deleted, and gone if nobody else
  // holds it.
  ghost predicate TakenOff(before: Ppr, pprs: map<Name, Ppr>, n: Name) {
    var rest := multiset(before.finalizers) - multiset{FINALIZER};
    if rest == multiset{} then n !in pprs
    else n in pprs && pprs[n].terminating && pprs[n].spec == before.spec && multiset(pprs[n].finalizers) == rest
  }

  lemma PutWithout(s: State, source: Source, finalizers: Finalizers)
    requires FINALIZER in source.finalizers
    requires multiset(finalizers) == multiset(source.finalizers) - multiset{FINALIZER}
    ensures SourceWithout(source, PutSource(s, source.(finalizers := finalizers)).source)
    ensures PutSource(s, source.(finalizers := finalizers)).pprs == s.pprs
    ensures HasFinalizer(finalizers) <==> multiset(source.finalizers)[FINALIZER] > 1
  {
    assert HasFinalizer(finalizers) <==> FINALIZER in multiset(finalizers);
    if finalizers != [] { assert finalizers[0] in multiset(finalizers); }
  }

  // Between the two calls: the finalizer is off; what was being deleted may be gone.
  ghost predicate HalfTaken(s0: State, s1: State, n: Name, current: Ppr, updated: Ppr) {
    && OthersKept(s0.pprs, s1.pprs, n) && updated.terminating == current.terminating && updated.spec == current.spec
    && multiset(updated.finalizers) == multiset(current.finalizers) - multiset{FINALIZER}
    && if updated.terminating && updated.finalizers == [] then n !in s1.pprs
       else n in s1.pprs && s1.pprs[n] == updated
  }

  lemma UpdatedIsHalf(s: State, n: Name, current: Ppr, finalizers: Finalizers)
    requires n in s.pprs && s.pprs[n] == current
    requires multiset(finalizers) == multiset(current.finalizers) - multiset{FINALIZER}
    ensures var stored := current.(finalizers := finalizers, spec := current.spec);
      HalfTaken(s, PutPpr(s, n, stored), n, current, stored.(rv := s.clock))
  {
  }

  lemma HalfThenDeleted(s0: State, s1: State, n: Name, current: Ppr, updated: Ppr)
    requires HalfTaken(s0, s1, n, current, updated) && n in s0.pprs
    ensures updated.terminating ==> OthersKept(s0.pprs, s1.pprs, n) && TakenOff(current, s1.pprs, n)
    ensures !updated.terminating ==>
      && n in s1.pprs && OthersKept(s0.pprs, DeletePpr(s1, n).pprs, n)
      && TakenOff(current, DeletePpr(s1, n).pprs, n)
  {
    assert updated.finalizers == [] <==> multiset(updated.finalizers) == multiset{} by {
      if updated.finalizers != [] { assert updated.finalizers[0] in multiset(updated.finalizers); }
    }
  }

  ghost predicate Created(pprs: map<Name, Ppr>, pprs': map<Name, Ppr>, n: Name, spec: Spec, blocked: bool) {
    && OthersKept(pprs, pprs', n)
    && if blocked then n !in pprs' else RequiredDone(pprs, pprs', n, spec)
  }

  ghost predicate Synced(pprs: map<Name, Ppr>, pprs': map<Name, Ppr>, n: Name, spec: Spec) {
    OthersKept(pprs, pprs', n) && RequiredDone(pprs, pprs', n, spec)
  }

  lemma PutSynced(s: State, n: Name, spec: Spec)
    requires Stored(s) && n in s.pprs
    ensures Synced(s.pprs, PutPpr(s, n, s.pprs[n].(spec := spec)).pprs, n, spec)
    ensures s.pprs[n].spec == spec ==> Synced(s.pprs, s.pprs, n, spec)
  {
  }

  // There with the spec it should have, the finalizers it had, and that of the generator when it is new.
  predicate RequiredDone(pprs: map<Name, Ppr>, pprs': map<Name, Ppr>, n: Name, spec: Spec) {
    && n in pprs' && pprs'[n].spec == spec
    && if n in pprs then pprs'[n].finalizers == pprs[n].finalizers && pprs'[n].terminating == pprs[n].terminating
       else pprs'[n].finalizers == [FINALIZER] && !pprs'[n].terminating
  }

  // A terminating workload without the finalizer gets no new protectors.
  ghost predicate DoneRequired(pprs: map<Name, Ppr>, pprs': map<Name, Ppr>, n: Name, spec: Spec, blocked: bool) {
    if blocked then (n in pprs' <==> n in pprs) && (n in pprs ==> pprs'[n] == pprs[n])
    else RequiredDone(pprs, pprs', n, spec)
  }

  // What the local copies are of.
  ghost predicate AllKnown(s: State, pprs: map<Name, Ppr>) {
    forall n :: n in pprs ==> KnownPpr(s, pprs[n])
  }

  // Where the loop over the required protectors is.
  ghost predicate Requiring(was: map<Name, Ppr>, s: State, required: map<Name, Spec>, done: set<Name>,
                            blocked: bool, quiet: bool) {
    && done <= required.Keys && s.pprs.Keys <= was.Keys + done && AllKnown(s, was)
    && (forall n :: n in was && was[n].terminating && n !in done ==> Dropped(s, n))
    && (quiet ==> QuietlyRequired(was, s, required, done, blocked))
  }

  // Undisturbed, the others are as before, and those it has been through as they should be.
  ghost predicate QuietlyRequired(was: map<Name, Ppr>, s: State, required: map<Name, Spec>, done: set<Name>,
                                  blocked: bool)
    requires done <= required.Keys
  {
    && (forall n :: n !in done ==> (n in s.pprs <==> n in was) && (n in was ==> s.pprs[n] == was[n]))
    && (forall n :: n in done ==> DoneRequired(was, s.pprs, n, required[n], blocked))
  }

  // Where the loop over the others is: `dropped` is what it has been through.
  ghost predicate Dropping(was: map<Name, Ppr>, s: State, required: map<Name, Spec>, dropped: set<Name>,
                           blocked: bool, quiet: bool) {
    && dropped <= was.Keys - required.Keys && s.pprs.Keys <= was.Keys + required.Keys && AllKnown(s, was)
    && (forall n :: n in dropped || (n in was && was[n].terminating && n !in required) ==> Dropped(s, n))
    && (quiet ==> QuietlyDropped(was, s, required, dropped, blocked))
  }

  // Undisturbed, the others are as before, and those it has been through as they should be.
  ghost predicate QuietlyDropped(was: map<Name, Ppr>, s: State, required: map<Name, Spec>, dropped: set<Name>,
                                 blocked: bool)
    requires dropped <= was.Keys
  {
    && (forall n :: n !in dropped && n !in required ==>
      (n in s.pprs <==> n in was) && (n in was ==> s.pprs[n] == was[n]))
    && (forall n :: n in dropped ==> TakenOff(was[n], s.pprs, n))
    && (forall n :: n in required ==> DoneRequired(was, s.pprs, n, required[n], blocked))
  }

  lemma RequiringCreated(was: map<Name, Ppr>, s: State, s': State, required: map<Name, Spec>, done: set<Name>,
                         blocked: bool, quiet: bool, n: Name)
    requires Requiring(was, s, required, done, blocked, quiet) && n in required && n !in done && n !in was
    requires s'.pprs.Keys <= s.pprs.Keys + {n} && Remembers(s, s')
    requires forall m :: m != n && Dropped(s, m) ==> Dropped(s', m)
    requires quiet ==> Created(s.pprs, s'.pprs, n, required[n], blocked)
    ensures Requiring(was, s', required, done + {n}, blocked, quiet)
  {
    hide QuietlyRequired, KnownPpr;
    StillKnown(s, s', was);
    hide AllKnown;
    if quiet {
      QuietlyRequiredOne(was, s, s', required, done, blocked, n);
    }
  }

  lemma QuietlyRequiredOne(was: map<Name, Ppr>, s: State, s': State, required: map<Name, Spec>, done: set<Name>,
                           blocked: bool, n: Name)
    requires done <= required.Keys && n in required && n !in done && QuietlyRequired(was, s, required, done, blocked)
    requires OthersKept(s.pprs, s'.pprs, n) && DoneRequired(s.pprs, s'.pprs, n, required[n], blocked)
    ensures QuietlyRequired(was, s', required, done + {n}, blocked)
  {
    assert DoneRequired(was, s'.pprs, n, required[n], blocked);
    hide DoneRequired, OthersKept;
    forall m | m !in done + {n} ensures (m in s'.pprs <==> m in was) && (m in was ==> s'.pprs[m] == was[m]) {
      OtherKept(s.pprs, s'.pprs, n, m);
    }
    forall m | m in done + {n} ensures DoneRequired(was, s'.pprs, m, required[m], blocked) {
      if m != n {
        SameDone(was, s.pprs, s'.pprs, n, m, required[m], blocked);
      }
    }
  }

  // A protector the index does not show is there already: nothing was created.
  lemma RequiringMissed(was: map<Name, Ppr>, s: State, s': State, required: map<Name, Spec>, done: set<Name>,
                        blocked: bool, quiet: bool, n: Name)
    requires Requiring(was, s, required, done, blocked, quiet) && n in required && n !in done && n in was
    requires s'.pprs.Keys <= s.pprs.Keys + {n} && Remembers(s, s')
    requires forall m :: m != n && Dropped(s, m) ==> Dropped(s', m)
    requires quiet ==> blocked && s'.pprs == s.pprs
    ensures Requiring(was, s', required, done + {n}, blocked, quiet)
  {
    hide QuietlyRequired, KnownPpr;
    StillKnown(s, s', was);
    hide AllKnown;
    if quiet {
      QuietlyRequiredOne(was, s, s', required, done, blocked, n);
    }
  }

  // What the index shows of the stored protectors.
  ghost predicate Shows(was: map<Name, Ppr>, relevant: map<Name, Ppr>) {
    forall n :: n in relevant ==> n in was && relevant[n] == was[n]
  }

  lemma RequiringSynced(was: map<Name, Ppr>, s: State, s': State, required: map<Name, Spec>, done: set<Name>,
                        blocked: bool, quiet: bool, n: Name)
    requires Requiring(was, s, required, done, blocked, quiet) && n in required && n !in done && n in was
    requires Relied(s, s')
    requires quiet ==> !blocked && Synced(s.pprs, s'.pprs, n, required[n])
    ensures Requiring(was, s', required, done + {n}, blocked, quiet)
  {
    hide QuietlyRequired, KnownPpr;
    StillKnown(s, s', was);
    hide AllKnown;
    if quiet {
      QuietlyRequiredOne(was, s, s', required, done, blocked, n);
    }
  }

  // Only a quiet cluster says what exactly is done.
  lemma RequiringAnyBlocked(was: map<Name, Ppr>, s: State, required: map<Name, Spec>, done: set<Name>, blocked: bool,
                            blocked': bool, quiet: bool)
    requires Requiring(was, s, required, done, blocked, quiet) && (quiet ==> blocked' == blocked)
    ensures Requiring(was, s, required, done, blocked', quiet)
  {
  }

  lemma Unprocessed(was: map<Name, Ppr>, s: State, required: map<Name, Spec>, done: set<Name>, blocked: bool,
                    quiet: bool, n: Name)
    requires Requiring(was, s, required, done, blocked, quiet) && quiet && n !in done
    ensures (n in s.pprs <==> n in was) && (n in was ==> s.pprs[n] == was[n])
  {
  }

  lemma RequiringStarts(s: State, required: map<Name, Spec>, blocked: bool, quiet: bool)
    requires Stored(s)
    ensures Requiring(s.pprs, s, required, {}, blocked, quiet)
  {
  }

  lemma RequiringEnds(was: map<Name, Ppr>, s: State, required: map<Name, Spec>, blocked: bool, quiet: bool)
    requires Requiring(was, s, required, required.Keys, blocked, quiet)
    ensures Dropping(was, s, required, {}, blocked, quiet)
  {
  }

  // A protector that exists cannot be created, and one that the index shows is not synced without the finalizer.
  predicate Refused(was: map<Name, Ppr>, relevant: map<Name, Ppr>, n: Name, blocked: bool) {
    n in was && (n in relevant <==> blocked)
  }

  lemma KnownHere(was: map<Name, Ppr>, s: State, required: map<Name, Spec>, done: set<Name>, blocked: bool,
                  quiet: bool, n: Name)
    requires Requiring(was, s, required, done, blocked, quiet) && n in was
    ensures KnownPpr(s, was[n])
  {
  }

  method Require(r: Reconciler, relevant: map<Name, Ppr>, ghost was: map<Name, Ppr>, required: map<Name, Spec>,
                 ghost done: set<Name>, n: Name)
    returns (ok: bool)
    requires r.Valid() && Requiring(was, r.cluster.s, required, done, r.Blocked(), r.cluster.quiet)
    requires Shows(was, relevant) && n in required && n !in done
    modifies r, r.cluster
    ensures old(r.cluster.AllSafe()) ==> r.cluster.AllSafe()
    ensures r.Valid() && old(r.cluster.trace) <= r.cluster.trace && !r.needsRemoval
    ensures ok ==> Requiring(was, r.cluster.s, required, done + {n}, r.Blocked(), r.cluster.quiet)
    ensures ok ==> r.Blocked() || Protected(r.cluster.s)
    ensures r.cluster.quiet ==> r.Blocked() == old(r.Blocked())
    ensures r.cluster.quiet ==> (ok <==> !Refused(was, relevant, n, old(r.Blocked())))
    ensures r.cluster.quiet ==> SourceWith(old(r.source), r.cluster.s.source)
  {
    ghost var s, blocked := r.cluster.s, r.Blocked();
    if r.cluster.quiet { Unprocessed(was, s, required, done, blocked, true, n); }
    assert n in relevant ==> n in was && was[n] == relevant[n];
    if n in was { KnownHere(was, s, required, done, blocked, r.cluster.quiet, n); }
    assert forall s' :: Relied(s, s') ==> Remembers(s, s');
    hide Requiring, Created, Synced, Dropped, Relied, Shows, SourceWith, KnownPpr, Remembers;
    if n !in relevant {
      ok := r.CreateProtector(n, required[n]);
      if !ok {
        return;
      }
      if n in was {
        RequiringMissed(was, s, r.cluster.s, required, done, blocked, r.cluster.quiet, n);
      } else {
        RequiringCreated(was, s, r.cluster.s, required, done, blocked, r.cluster.quiet, n);
      }
    } else {
      ok := r.SyncProtector(n, relevant[n], required[n]);
      if !ok {
        return;
      }
      RequiringSynced(was, s, r.cluster.s, required, done, blocked, r.cluster.quiet, n);
    }
    RequiringAnyBlocked(was, r.cluster.s, required, done + {n}, blocked, r.Blocked(), r.cluster.quiet);
  }

  lemma DroppingAt(was: map<Name, Ppr>, s: State, required: map<Name, Spec>, dropped: set<Name>, blocked: bool,
                   quiet: bool, n: Name)
    requires Dropping(was, s, required, dropped, blocked, quiet) && n in was && n !in required && n !in dropped
    ensures (was[n].terminating ==> Dropped(s, n)) && KnownPpr(s, was[n])
    ensures quiet ==> n in s.pprs && s.pprs[n] == was[n]
  {
  }

  lemma DroppingOne(was: map<Name, Ppr>, s: State, s': State, required: map<Name, Spec>, dropped: set<Name>,
                    blocked: bool, quiet: bool, n: Name)
    requires Dropping(was, s, required, dropped, blocked, quiet) && n in was && n !in required && n !in dropped
    requires Relied(s, s') && Dropped(s', n)
    requires quiet ==> OthersKept(s.pprs, s'.pprs, n) && TakenOff(was[n], s'.pprs, n)
    ensures Dropping(was, s', required, dropped + {n}, blocked, quiet)
  {
    hide QuietlyDropped, OthersKept, TakenOff, KnownPpr;
    StillKnown(s, s', was);
    hide AllKnown;
    if quiet {
      QuietlyDroppedOne(was, s, s', required, dropped, blocked, n);
    }
  }

  lemma QuietlyDroppedOne(was: map<Name, Ppr>, s: State, s': State, required: map<Name, Spec>, dropped: set<Name>,
                          blocked: bool, n: Name)
    requires dropped <= was.Keys && n in was && n !in required && n !in dropped
    requires QuietlyDropped(was, s, required, dropped, blocked)
    requires OthersKept(s.pprs, s'.pprs, n) && TakenOff(was[n], s'.pprs, n)
    ensures QuietlyDropped(was, s', required, dropped + {n}, blocked)
  {
    hide TakenOff, DoneRequired, OthersKept;
    forall m | m !in dropped + {n} && m !in required
      ensures (m in s'.pprs <==> m in was) && (m in was ==> s'.pprs[m] == was[m])
    {
      OtherKept(s.pprs, s'.pprs, n, m);
    }
    forall m | m in dropped + {n} ensures TakenOff(was[m], s'.pprs, m) {
      if m != n {
        SameTakenOff(was[m], s.pprs, s'.pprs, n, m);
      }
    }
    forall m | m in required ensures DoneRequired(was, s'.pprs, m, required[m], blocked) {
      SameDone(was, s.pprs, s'.pprs, n, m, required[m], blocked);
    }
  }

  lemma OtherKept(pprs: map<Name, Ppr>, pprs': map<Name, Ppr>, n: Name, m: Name)
    requires OthersKept(pprs, pprs', n) && m != n
    ensures (m in pprs' <==> m in pprs) && (m in pprs ==> pprs'[m] == pprs[m])
  {
  }

  lemma SameTakenOff(before: Ppr, pprs: map<Name, Ppr>, pprs': map<Name, Ppr>, n: Name, m: Name)
    requires OthersKept(pprs, pprs', n) && m != n
    ensures TakenOff(before, pprs, m) <==> TakenOff(before, pprs', m)
  {
  }

  lemma SameDone(was: map<Name, Ppr>, pprs: map<Name, Ppr>, pprs': map<Name, Ppr>, n: Name, m: Name, spec: Spec,
                 blocked: bool)
    requires OthersKept(pprs, pprs', n) && m != n
    ensures DoneRequired(was, pprs, m, spec, blocked) <==> DoneRequired(was, pprs', m, spec, blocked)
  {
  }

  lemma StillKnown(s: State, s': State, pprs: map<Name, Ppr>)
    requires AllKnown(s, pprs) && Remembers(s, s')
    ensures AllKnown(s', pprs)
  {
  }

  method Drop(r: Reconciler, relevant: map<Name, Ppr>, ghost was: map<Name, Ppr>, ghost required: map<Name, Spec>,
              ghost dropped: set<Name>, n: Name)
    returns (ok: bool)
    requires r.Valid() && Dropping(was, r.cluster.s, required, dropped, r.Blocked(), r.cluster.quiet)
    requires Shows(was, relevant) && n in relevant && n !in required && n !in dropped
    modifies r, r.cluster
    ensures old(r.cluster.AllSafe()) ==> r.cluster.AllSafe()
    ensures r.Valid() && old(r.cluster.trace) <= r.cluster.trace && r.source == old(r.source)
    ensures r.needsRemoval == (ok && old(r.needsRemoval))
    ensures ok ==> Dropping(was, r.cluster.s, required, dropped + {n}, r.Blocked(), r.cluster.quiet)
    ensures r.cluster.quiet ==> ok
  {
    assert n in was && was[n] == relevant[n];
    ghost var s := r.cluster.s;
    DroppingAt(was, s, required, dropped, r.Blocked(), r.cluster.quiet, n);
    hide Shows, Dropping, Relied, OthersKept, TakenOff, KnownPpr, r.cluster.AllSafe;
    ok := r.DeleteProtector(n, relevant[n]);
    if ok {
      DroppingOne(was, s, r.cluster.s, required, dropped, r.Blocked(), r.cluster.quiet, n);
    }
  }

  // Adding the finalizer again changes nothing.
  lemma WithTwice(a: Source, b: Source, c: Source)
    requires SourceWith(a, Some(b)) && SourceWith(b, Some(c))
    ensures SourceWith(a, Some(c))
  {
    if FINALIZER !in a.finalizers && !a.terminating {
      assert FINALIZER in multiset(b.finalizers);
    }
  }

  // Undisturbed, nothing was refused so far, and the workload has the finalizer once something was done.
  ghost predicate Unhindered(was: map<Name, Ppr>, relevant: map<Name, Ppr>, done: set<Name>, before: Source,
                             now: Source)
  {
    && (forall n :: n in done ==> !Refused(was, relevant, n, IsBlocked(before)))
    && IsBlocked(now) == IsBlocked(before)
    && if done == {} then now == before else SourceWith(before, Some(now))
  }

  lemma UnhinderedOne(was: map<Name, Ppr>, relevant: map<Name, Ppr>, done: set<Name>, before: Source, now: Source,
                      next: Source, n: Name)
    requires Unhindered(was, relevant, done, before, now) && SourceWith(now, Some(next))
    requires IsBlocked(next) == IsBlocked(now)
    ensures SourceWith(before, Some(next)) && IsBlocked(now) == IsBlocked(before)
    ensures !Refused(was, relevant, n, IsBlocked(now)) ==> Unhindered(was, relevant, done + {n}, before, next)
  {
    hide Refused;
    if done != {} {
      WithTwice(before, now, next);
    }
  }

  // What an undisturbed loop over the required protectors comes to.
  ghost predicate RequireOutcome(was: map<Name, Ppr>, relevant: map<Name, Ppr>, required: map<Name, Spec>,
                                 before: Source, now: Source, ok: bool)
  {
    && (ok <==> forall n :: n in required ==> !Refused(was, relevant, n, IsBlocked(before)))
    && IsBlocked(now) == IsBlocked(before)
    && if required == map[] then now == before else SourceWith(before, Some(now))
  }

  lemma UnhinderedMeans(was: map<Name, Ppr>, relevant: map<Name, Ppr>, required: map<Name, Spec>, before: Source,
                        now: Source)
    requires Unhindered(was, relevant, required.Keys, before, now)
    ensures RequireOutcome(was, relevant, required, before, now, true)
  {
    hide Refused, SourceWith;
  }

  // One turn of the loop.
  method RequireNext(r: Reconciler, relevant: map<Name, Ppr>, ghost was: map<Name, Ppr>, required: map<Name, Spec>,
                     ghost done: set<Name>, n: Name, ghost before: Source)
    returns (ok: bool)
    requires r.Valid() && Requiring(was, r.cluster.s, required, done, r.Blocked(), r.cluster.quiet)
    requires Shows(was, relevant) && n in required && n !in done
    requires r.cluster.quiet ==> Unhindered(was, relevant, done, before, r.source)
    modifies r, r.cluster
    ensures old(r.cluster.AllSafe()) ==> r.cluster.AllSafe()
    ensures r.Valid() && old(r.cluster.trace) <= r.cluster.trace && !r.needsRemoval
    ensures ok ==> Requiring(was, r.cluster.s, required, done + {n}, r.Blocked(), r.cluster.quiet)
    ensures r.cluster.quiet ==>
      if ok then Unhindered(was, relevant, done + {n}, before, r.source)
      else RequireOutcome(was, relevant, required, before, r.source, false)
  {
    hide Requiring, Shows, Refused, Unhindered, SourceWith;
    ghost var source := r.source;
    ok := Require(r, relevant, was, required, done, n);
    if r.cluster.quiet {
      UnhinderedOne(was, relevant, done, before, source, r.source, n);
    }
  }

  // The protectors the workload requires, in any order.
  method RequireAll(r: Reconciler, relevant: map<Name, Ppr>, ghost was: map<Name, Ppr>, required: map<Name, Spec>)
    returns (ok: bool)
    requires r.Valid() && r.cluster.s.pprs == was && Shows(was, relevant)
    modifies r, r.cluster
    ensures old(r.cluster.AllSafe()) ==> r.cluster.AllSafe()
    ensures r.Valid() && old(r.cluster.trace) <= r.cluster.trace
    ensures ok ==> Dropping(was, r.cluster.s, required, {}, r.Blocked(), r.cluster.quiet)
    ensures if required == map[] then ok && r.source == old(r.source) && r.needsRemoval == old(r.needsRemoval)
      else !r.needsRemoval
    ensures r.cluster.quiet ==> RequireOutcome(was, relevant, required, old(r.source), r.source, ok)
  {
    hide *;
    ok := true;
    var rest := required.Keys;
    ghost var done: set<Name> := {};
    LoopStarts(r, relevant, required);
    while rest != {}
      invariant done == required.Keys - rest && rest <= required.Keys && ok
      invariant r.Valid() && old(r.cluster.trace) <= r.cluster.trace
      invariant old(r.cluster.AllSafe()) ==> r.cluster.AllSafe()
      invariant Requiring(was, r.cluster.s, required, done, r.Blocked(), r.cluster.quiet)
      invariant if done == {} then r.source == old(r.source) && r.needsRemoval == old(r.needsRemoval)
        else !r.needsRemoval
      invariant r.cluster.quiet ==> Unhindered(was, relevant, done, old(r.source), r.source)
    {
      var n :| n in rest;
      ok := RequireNext(r, relevant, was, required, done, n, old(r.source));
      if !ok {
        return;
      }
      done, rest := done + {n}, rest - {n};
    }
    LoopEnds(r, relevant, was, required, done, old(r.source));
  }

  lemma LoopStarts(r: Reconciler, relevant: map<Name, Ppr>, required: map<Name, Spec>)
    requires r.Valid()
    ensures Requiring(r.cluster.s.pprs, r.cluster.s, required, {}, r.Blocked(), r.cluster.quiet)
    ensures Unhindered(r.cluster.s.pprs, relevant, {}, r.source, r.source)
  {
    hide Requiring, Refused;
    RequiringStarts(r.cluster.s, required, r.Blocked(), r.cluster.quiet);
  }

  lemma LoopEnds(r: Reconciler, relevant: map<Name, Ppr>, was: map<Name, Ppr>, required: map<Name, Spec>,
                 done: set<Name>, before: Source)
    requires done == required.Keys && Requiring(was, r.cluster.s, required, done, r.Blocked(), r.cluster.quiet)
    requires r.cluster.quiet ==> Unhindered(was, relevant, done, before, r.source)
    ensures Dropping(was, r.cluster.s, required, {}, r.Blocked(), r.cluster.quiet)
    ensures r.cluster.quiet ==> RequireOutcome(was, relevant, required, before, r.source, true)
    ensures done == {} <==> required == map[]
  {
    hide Requiring, Dropping, Unhindered, RequireOutcome;
    RequiringEnds(was, r.cluster.s, required, r.Blocked(), r.cluster.quiet);
    if r.cluster.quiet {
      UnhinderedMeans(was, relevant, required, before, r.source);
    }
  }


  // The protectors that the index shows and are not required, in any order.
  method DropAll(r: Reconciler, relevant: map<Name, Ppr>, ghost was: map<Name, Ppr>, ghost required: map<Name, Spec>,
                 unneeded: set<Name>)
    returns (ok: bool)
    requires r.Valid() && Dropping(was, r.cluster.s, required, {}, r.Blocked(), r.cluster.quiet)
    requires Shows(was, relevant) && unneeded == relevant.Keys - required.Keys
    modifies r, r.cluster
    ensures old(r.cluster.AllSafe()) ==> r.cluster.AllSafe()
    ensures r.Valid() && old(r.cluster.trace) <= r.cluster.trace && r.source == old(r.source)
    ensures ok ==> Dropping(was, r.cluster.s, required, unneeded, r.Blocked(), r.cluster.quiet)
    ensures ok ==> r.needsRemoval == old(r.needsRemoval)
    ensures r.cluster.quiet ==> ok
  {
    ok := true;
    var rest := unneeded;
    assert unneeded - rest == {};
    hide Dropping, Shows;
    while rest != {}
      invariant rest <= unneeded && r.Valid() && old(r.cluster.trace) <= r.cluster.trace && ok
      invariant old(r.cluster.AllSafe()) ==> r.cluster.AllSafe()
      invariant Dropping(was, r.cluster.s, required, unneeded - rest, r.Blocked(), r.cluster.quiet)
      invariant r.source == old(r.source) && r.needsRemoval == old(r.needsRemoval)
    {
      var n :| n in rest;
      ok := Drop(r, relevant, was, required, unneeded - rest, n);
      if !ok {
        return;
      }
      assert unneeded - rest + {n} == unneeded - (rest - {n});
      rest := rest - {n};
    }
    assert unneeded - rest == unneeded;
  }

  predicate IsBlocked(source: Source) {
    source.terminating && !HasFinalizer(source.finalizers)
  }

  // What an undisturbed reconciliation does to the workload: it adds the finalizer while something is required and
  // takes it away when nothing is.
  ghost predicate SourceDone(before: Source, after: Option<Source>) {
    if before.required == map[] then SourceWithout(before, after) else SourceWith(before, after)
  }

  // What one achieves that succeeds: protectors required are there as they should be, those no longer required are
  // taken off, unless the index does not show them.
  ghost predicate Converged(before: State, after: State, missed: set<Name>) {
    if before.source == None then after == before
    else
      var source := before.source.value;
      && SourceDone(source, after.source)
      && (forall n :: n !in source.required ==> DoneUnrequired(before.pprs, after.pprs, n, missed))
      && (forall n :: n in source.required ==>
          DoneRequired(before.pprs, after.pprs, n, source.required[n], IsBlocked(source)))
  }

  ghost predicate DoneUnrequired(pprs: map<Name, Ppr>, pprs': map<Name, Ppr>, n: Name, missed: set<Name>) {
    if n !in pprs then n !in pprs'
    else if n in missed then n in pprs' && pprs'[n] == pprs[n]
    else TakenOff(pprs[n], pprs', n)
  }

  // It fails when a required protector exists that the index does not show, so that it is not to be created again, or
  // that a terminating workload without the finalizer would have to keep.
  ghost predicate Stuck(s: State, missed: set<Name>) {
    s.source.Some? &&
    exists n :: n in s.pprs && n in s.source.value.required && (n in missed <==> !IsBlocked(s.source.value))
  }

  // With nothing required, all are being deleted when the protectors that the index did not show were.
  lemma Unrequired(was: map<Name, Ppr>, missed: set<Name>, required: map<Name, Spec>, source: Source, s: State,
                   blocked: bool, quiet: bool)
    requires required == map[] && Dropping(was, s, required, (was - missed).Keys, blocked, quiet)
    ensures Harmless(was, missed, required, source) ==>
      AllTerminating(s) || multiset(source.finalizers)[FINALIZER] > 1
  {
    if forall n :: n in was && n in missed ==> was[n].terminating {
      forall n ensures Dropped(s, n) {
        assert n in s.pprs ==> n in was;
      }
    }
  }

  lemma EverythingDone(was: map<Name, Ppr>, missed: set<Name>, s: State, required: map<Name, Spec>, before: Source)
    requires Dropping(was, s, required, (was - missed).Keys - required.Keys, IsBlocked(before), true)
    ensures AllDone(was, missed, required, before, s)
  {
    hide TakenOff, DoneRequired, AllKnown;
  }

  // The finalizer stays whatever the index shows.
  predicate KeepsFinalizer(s: State) {
    s.source == None || s.source.value.required != map[] || multiset(s.source.value.finalizers)[FINALIZER] > 1
  }

  // All the PodProtectors that the index does not show are being deleted or not there.
  ghost predicate MissesNone(s: State, missed: set<Name>) {
    forall n :: n in missed ==> Dropped(s, n)
  }

  // After the loop over the required protectors.
  method Finish(r: Reconciler, relevant: map<Name, Ppr>, ghost was: map<Name, Ppr>, ghost missed: set<Name>,
                required: map<Name, Spec>)
    returns (ok: bool)
    requires r.Valid() && Dropping(was, r.cluster.s, required, {}, r.Blocked(), r.cluster.quiet)
    requires relevant == was - missed && (r.needsRemoval <==> required == map[])
    modifies r, r.cluster
    ensures r.cluster.Valid() && old(r.cluster.trace) <= r.cluster.trace
    ensures old(r.cluster.AllSafe()) && Harmless(was, missed, required, old(r.source)) ==> r.cluster.AllSafe()
    ensures r.cluster.quiet ==> ok && FinishOutcome(was, missed, required, old(r.source), r.cluster.s)
    ensures ok ==> AllDropped(r.cluster.s, relevant.Keys - required.Keys)
  {
    assert Shows(was, relevant) && relevant.Keys == was.Keys - missed;
    assert r.cluster.quiet ==> r.cluster.s.source == Some(r.source);
    hide *;
    ghost var before := r.source;
    ok := DropAll(r, relevant, was, required, relevant.Keys - required.Keys);
    if !ok {
      return;
    }
    ghost var s := r.cluster.s;
    assert r.cluster.quiet ==> s.source == Some(before) by { QuietSource(r); }
    DroppingDrops(was, s, required, relevant.Keys - required.Keys, r.Blocked(), r.cluster.quiet);
    if r.needsRemoval {
      assert relevant.Keys - required.Keys == relevant.Keys;
      Unrequired(was, missed, required, before, s, r.Blocked(), r.cluster.quiet);
      ok := r.RemoveSourceFinalizer();
      StillDropped(s, r.cluster.s, relevant.Keys - required.Keys);
    }
    if r.cluster.quiet {
      EverythingDone(was, missed, s, required, before);
      FinishMeans(was, missed, required, before, s, r.cluster.s);
    }
  }

  ghost predicate AllDropped(s: State, names: set<Name>) {
    forall n :: n in names ==> Dropped(s, n)
  }

  lemma DroppingDrops(was: map<Name, Ppr>, s: State, required: map<Name, Spec>, dropped: set<Name>, blocked: bool,
                      quiet: bool)
    requires Dropping(was, s, required, dropped, blocked, quiet)
    ensures AllDropped(s, dropped)
  {
  }

  lemma StillDropped(s: State, s': State, names: set<Name>)
    requires AllDropped(s, names) && OnlyShrinks(s, s')
    ensures AllDropped(s', names)
  {
    forall n | n in names ensures Dropped(s', n) { assert Dropped(s, n); }
  }

  lemma QuietSource(r: Reconciler)
    requires r.Valid()
    ensures r.cluster.quiet ==> r.cluster.s.source == Some(r.source)
  {
  }

  // The finalizer may be taken from the workload, if it is at all.
  ghost predicate Harmless(was: map<Name, Ppr>, missed: set<Name>, required: map<Name, Spec>, source: Source) {
    || required != map[] || multiset(source.finalizers)[FINALIZER] > 1
    || forall n :: n in was && n in missed ==> was[n].terminating
  }

  ghost predicate FinishOutcome(was: map<Name, Ppr>, missed: set<Name>, required: map<Name, Spec>, before: Source,
                                s: State)
  {
    && (if required == map[] then SourceWithout(before, s.source) else s.source == Some(before))
    && AllDone(was, missed, required, before, s)
  }

  ghost predicate AllDone(was: map<Name, Ppr>, missed: set<Name>, required: map<Name, Spec>, before: Source, s: State) {
    && (forall n :: n !in required ==> DoneUnrequired(was, s.pprs, n, missed))
    && (forall n :: n in required ==> DoneRequired(was, s.pprs, n, required[n], IsBlocked(before)))
  }

  lemma FinishMeans(was: map<Name, Ppr>, missed: set<Name>, required: map<Name, Spec>, before: Source, s: State,
                    s': State)
    requires AllDone(was, missed, required, before, s) && s.source == Some(before) && s'.pprs == s.pprs
    requires if required == map[] then SourceWithout(before, s'.source) else s' == s
    ensures FinishOutcome(was, missed, required, before, s')
  {
    hide DoneUnrequired, DoneRequired, SourceWithout;
  }

  // A safe state without the finalizer, where all that the index missed is as before.
  lemma MustShow(s0: State, s: State, missed: set<Name>)
    requires Safe(s) && !KeepsFinalizer(s0) && Converged(s0, s, missed)
    ensures MissesNone(s0, missed)
  {
    var source := s0.source.value;
    assert !Protected(s) by {
      if s.source.Some? && FINALIZER in source.finalizers {
        assert FINALIZER !in multiset(s.source.value.finalizers);
      }
    }
    forall n | n in missed ensures Dropped(s0, n) {
      assert DoneUnrequired(s0.pprs, s.pprs, n, missed);
    }
  }

  // Both loops, and the finalizer of the workload in the end.
  method ReconcileProtectors(r: Reconciler, relevant: map<Name, Ppr>, ghost s0: State, ghost missed: set<Name>,
                             required: map<Name, Spec>)
    returns (ok: bool)
    requires r.Valid() && r.cluster.s == s0 && relevant == s0.pprs - missed && r.needsRemoval
    requires r.cluster.quiet ==> r.source.required == required
    modifies r, r.cluster
    ensures r.cluster.Valid() && old(r.cluster.trace) <= r.cluster.trace
    ensures old(r.cluster.AllSafe()) && MissesNone(s0, missed) ==> r.cluster.AllSafe()
    ensures r.cluster.quiet && !ok && old(r.cluster.AllSafe()) ==> r.cluster.AllSafe()
    ensures r.cluster.quiet && ok && old(r.cluster.AllSafe()) ==>
      (r.cluster.AllSafe() <==> KeepsFinalizer(s0) || MissesNone(s0, missed))
    ensures ok ==> AllDropped(r.cluster.s, relevant.Keys - required.Keys)
    ensures r.cluster.quiet ==> SourceDone(old(r.source), r.cluster.s.source)
    ensures r.cluster.quiet ==> (ok <==> !Stuck(s0, missed)) && (ok ==> Converged(s0, r.cluster.s, missed))
  {
    assert Shows(s0.pprs, relevant);
    assert r.cluster.quiet ==> s0.source == Some(r.source);
    hide *;
    ghost var source := r.source;
    ok := RequireAll(r, relevant, s0.pprs, required);
    if r.cluster.quiet {
      StuckIff(s0, missed, source, r.source, ok);
    }
    if !ok {
      assert r.cluster.quiet ==> SourceDone(source, r.cluster.s.source) by {
        QuietSource(r);
        if r.cluster.quiet { Stopped(s0.pprs, relevant, required, source, r.source); }
      }
      return;
    }
    ghost var before := r.source;
    ok := Finish(r, relevant, s0.pprs, missed, required);
    if MissesNone(s0, missed) {
      MissesNoneIsHarmless(s0, missed, required, before);
    }
    if r.cluster.quiet {
      Finished(s0, missed, source, before, required, relevant, r.cluster.s);
      if r.cluster.AllSafe() && !KeepsFinalizer(s0) {
        LastIsSafe(r.cluster);
        MustShow(s0, r.cluster.s, missed);
      }
    }
  }

  lemma LastIsSafe(cluster: Cluster)
    requires cluster.Valid() && cluster.AllSafe()
    ensures Safe(cluster.s)
  {
  }

  lemma MissesNoneIsHarmless(s: State, missed: set<Name>, required: map<Name, Spec>, source: Source)
    requires MissesNone(s, missed)
    ensures Harmless(s.pprs, missed, required, source)
  {
  }

  lemma Stopped(was: map<Name, Ppr>, relevant: map<Name, Ppr>, required: map<Name, Spec>, source: Source, now: Source)
    requires RequireOutcome(was, relevant, required, source, now, false) && source.required == required
    ensures SourceDone(source, Some(now))
  {
    hide SourceWith, Refused;
  }

  lemma Finished(s0: State, missed: set<Name>, source: Source, before: Source, required: map<Name, Spec>,
                 relevant: map<Name, Ppr>, s: State)
    requires s0.source == Some(source) && source.required == required
    requires RequireOutcome(s0.pprs, relevant, required, source, before, true)
    requires FinishOutcome(s0.pprs, missed, required, before, s)
    ensures SourceDone(source, s.source) && Converged(s0, s, missed)
    ensures KeepsFinalizer(s0) ==> Harmless(s0.pprs, missed, required, before)
  {
    hide Refused, DoneRequired, DoneUnrequired, SourceWith, SourceWithout;
  }

  lemma StuckIff(s: State, missed: set<Name>, source: Source, now: Source, ok: bool)
    requires s.source == Some(source)
    requires RequireOutcome(s.pprs, s.pprs - missed, source.required, source, now, ok)
    ensures ok <==> !Stuck(s, missed)
    ensures IsBlocked(now) == IsBlocked(source)
    ensures if source.required == map[] then now == source else SourceWith(source, Some(now))
  {
    hide SourceWith;
    assert forall n :: Refused(s.pprs, s.pprs - missed, n, IsBlocked(source)) <==>
      n in s.pprs && (n in missed <==> !IsBlocked(source));
  }

  // ReconcileItem, reading an index that does not show some PodProtectors. Every state on the way is safe if those are
  // being deleted, so it may crash anywhere; undisturbed, all are safe exactly if they are or the finalizer stays
  // anyway. Undisturbed, it takes away nothing but its own finalizers, and converges unless it is stuck. When it
  // succeeds, whatever happens meanwhile, all that the index showed and the workload did not require is being deleted.
  method ReconcileItem(cluster: Cluster, missed: set<Name>)
    returns (ok: bool, ghost required: map<Name, Spec>, ghost shown: set<Name>)
    requires cluster.Valid()
    modifies cluster
    ensures cluster.Valid() && old(cluster.trace) <= cluster.trace
    ensures old(cluster.AllSafe()) && MissesNone(old(cluster.s), missed) ==> cluster.AllSafe()
    ensures cluster.quiet && ok && old(cluster.AllSafe()) ==>
      (cluster.AllSafe() <==> KeepsFinalizer(old(cluster.s)) || MissesNone(old(cluster.s), missed))
    ensures cluster.quiet && !ok && old(cluster.AllSafe()) ==> cluster.AllSafe()
    ensures cluster.quiet && old(cluster.s).source.Some? ==>
      SourceDone(old(cluster.s).source.value, cluster.s.source)
    ensures ok ==> AllDropped(cluster.s, shown - required.Keys)
    ensures cluster.quiet && old(cluster.s).source.Some? ==>
      required == old(cluster.s).source.value.required && shown == old(cluster.s).pprs.Keys - missed
    ensures cluster.quiet ==>
      (ok <==> !Stuck(old(cluster.s), missed)) && (ok ==> Converged(old(cluster.s), cluster.s, missed))
  {
    ghost var s0 := cluster.s;
    cluster.Interfere();
    var sourceObject := cluster.s.source;
    cluster.Interfere();
    ghost var was := cluster.s.pprs;
    var relevant := cluster.s.pprs - missed;
    if sourceObject == None {
      return true, map[], {};
    }
    required, shown := sourceObject.value.required, relevant.Keys;
    var r := new Reconciler(cluster, sourceObject.value);
    hide SourceDone, Stuck, Converged, Stored, SparesOthers, KeepsFinalizer;
    ghost var s1 := cluster.s;
    ok := ReconcileProtectors(r, relevant, s1, missed, sourceObject.value.required);
    if MissesNone(s0, missed) {
      RelianceMissesNone(s0, s1, missed);
    }
  }

  lemma RelianceMissesNone(s0: State, s: State, missed: set<Name>)
    requires OnlyShrinks(s0, s) && MissesNone(s0, missed)
    ensures MissesNone(s, missed)
  {
    forall n | n in missed ensures Dropped(s, n) { assert Dropped(s0, n); }
  }

  // A workload that no longer requires the protector it still has.
  const WORKLOAD := Source(0, false, [FINALIZER], map[])
  const PROTECTOR := Ppr(1, false, [FINALIZER], "")
  const LEFT_OVER := State(
    Some(WORKLOAD), map["p" := PROTECTOR], 2, map[0 := WORKLOAD], map[1 := PROTECTOR])

  lemma LeftOverIsSafe()
    ensures Safe(LEFT_OVER) && Stored(LEFT_OVER)
    ensures !KeepsFinalizer(LEFT_OVER) && !MissesNone(LEFT_OVER, {"p"})
  {
    assert !Dropped(LEFT_OVER, "p");
  }

  // Undisturbed, a reconciliation whose index hides that protector takes the finalizer from its workload.
  method HiddenIsUnsafe() returns (cluster: Cluster)
    ensures fresh(cluster) && cluster.Valid() && cluster.quiet
    ensures cluster.trace != [] && cluster.trace[0] == LEFT_OVER && Safe(LEFT_OVER) && !cluster.AllSafe()
  {
    LeftOverIsSafe();
    cluster := new Cluster(LEFT_OVER, true);
    hide *;
    assert cluster.AllSafe() by { OneSafe(cluster); }
    var ok, _, _ := ReconcileItem(cluster, {"p"});
  }

  lemma OneSafe(cluster: Cluster)
    requires cluster.trace == [LEFT_OVER]
    ensures cluster.AllSafe()
  {
    LeftOverIsSafe();
  }

  // Any number of reconciliations, each with an index that may miss PodProtectors being deleted. A crash is a call that
  // fails, applied or lost, and no further calls until the next one. In no state, at no point, is there a PodProtector
  // that is not being deleted without the finalizer on its workload; so the finalizer is only ever removed when all of
  // them are being deleted.
  method Operate(cluster: Cluster, rounds: nat)
    requires cluster.Valid() && cluster.AllSafe()
    modifies cluster
    ensures cluster.Valid() && old(cluster.trace) <= cluster.trace
    ensures forall i :: 0 <= i < |cluster.trace| && !Protected(cluster.trace[i]) ==> AllTerminating(cluster.trace[i])
    ensures forall i :: i in cluster.own ==>
      0 < i < |cluster.trace| && SparesOthers(cluster.trace[i - 1], cluster.trace[i])
  {
    for i := 0 to rounds
      invariant cluster.Valid() && cluster.AllSafe() && old(cluster.trace) <= cluster.trace
    {
      var missed: set<Name> := *;
      if n :| n in missed && !Dropped(cluster.s, n) {
        missed := {};
      }
      var ok, _, _ := ReconcileItem(cluster, missed);
    }
    forall i | 0 <= i < |cluster.trace| && !Protected(cluster.trace[i]) ensures AllTerminating(cluster.trace[i]) {
      assert Safe(cluster.trace[i]);
    }
  }
}
