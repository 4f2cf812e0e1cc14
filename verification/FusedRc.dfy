/**
 The reference counter that can be fused while nobody holds it, on a wrapping 32-bit integer
 (util/retrybatch/fusedrc/fusedrc.go).
 */
module FusedRc {

  const TWO_31 := 0x8000_0000
  const TWO_30 := 0x4000_0000
  const FUSED_INIT := -TWO_30

  predicate IsInt32(x: int) {
    -TWO_31 <= x < TWO_31
  }

  // The value of atomic.Int32 after an addition.
  function Wrap(x: int): (r: int)
    ensures IsInt32(r) && (r - x) % (2 * TWO_31) == 0
  {
    (x + TWO_31) % (2 * TWO_31) - TWO_31
  }

  lemma WrapInRange(x: int)
    ensures IsInt32(x) ==> Wrap(x) == x
    ensures Wrap(TWO_31) == -TWO_31
  {
  }

  datatype Outcome = Success | Failure | Panic

  function AcquireOutcome(newValue: int): Outcome {
    if newValue > 0 then Success
    else if newValue == 0 || newValue == -TWO_31 then Panic
    else Failure
  }

  function ReleaseOutcome(newValue: int): Outcome {
    if newValue < 0 then Panic else Success
  }

  class Counter {
    var rc: int

    ghost predicate Valid()
      reads this
    {
      IsInt32(rc)
    }

    constructor ()
      ensures Valid() && rc == 0
    {
      rc := 0;
    }

    method Acquire() returns (outcome: Outcome)
      requires Valid()
      modifies this
      ensures Valid() && rc == Wrap(old(rc) + 1) && outcome == AcquireOutcome(rc)
    {
      rc := Wrap(rc + 1);
      var newValue := rc;
      if newValue > 0 {
        return Success;
      }
      if newValue == 0 {
        return Panic;
      }
      if newValue == -TWO_31 {
        return Panic;
      }
      return Failure;
    }

    method Release() returns (outcome: Outcome)
      requires Valid()
      modifies this
      ensures Valid() && rc == Wrap(old(rc) - 1) && outcome == ReleaseOutcome(rc)
    {
      rc := Wrap(rc - 1);
      return if rc < 0 then Panic else Success;
    }

    // A compare-and-swap from zero.
    method Fuse() returns (fused: bool)
      requires Valid()
      modifies this
      ensures Valid() && fused == (old(rc) == 0) && rc == if fused then FUSED_INIT else old(rc)
    {
      if rc == 0 {
        rc := FUSED_INIT;
        return true;
      }
      return false;
    }
  }

  // ----- runs of operations by well-behaved callers -----

  datatype Op = Acquire | Release | Fuse

  // The counter together with what a bystander would count.
  datatype Ledger = Ledger(rc: int, holders: nat, fused: bool, refused: nat, panicked: bool)

  const NEW := Ledger(0, 0, false, 0, false)

  function Apply(l: Ledger, op: Op): Ledger {
    match op
    case Acquire =>
      var rc := Wrap(l.rc + 1);
      var outcome := AcquireOutcome(rc);
      l.(rc := rc,
         holders := if outcome == Success then l.holders + 1 else l.holders,
         refused := if outcome == Failure then l.refused + 1 else l.refused,
         panicked := l.panicked || outcome == Panic)
    case Release =>
      var rc := Wrap(l.rc - 1);
      l.(rc := rc,
         holders := if l.holders > 0 then l.holders - 1 else 0,
         panicked := l.panicked || ReleaseOutcome(rc) == Panic)
    case Fuse =>
      if l.rc == 0 then l.(rc := FUSED_INIT, fused := true) else l
  }

  function Run(l: Ledger, ops: seq<Op>): Ledger {
    if ops == [] then l else Apply(Run(l, ops[..|ops| - 1]), ops[|ops| - 1])
  }

  // Callers release once per successful acquire, fewer than 2^31 - 1 hold the counter when one more
  // acquires it, and fewer than 2^30 acquires are attempted after a fuse.
  ghost predicate WellBehaved(ops: seq<Op>) {
    ops == [] ||
    var l := Run(NEW, ops[..|ops| - 1]);
    && WellBehaved(ops[..|ops| - 1])
    && match ops[|ops| - 1]
       case Acquire => if l.fused then l.refused < TWO_30 - 1 else l.holders < TWO_31 - 1
       case Release => l.holders > 0
       case Fuse => true
  }

  // What the counter means.
  ghost predicate Meaning(l: Ledger) {
    && !l.panicked
    && if l.fused then l.holders == 0 && l.rc == FUSED_INIT + l.refused && l.refused < TWO_30
       else l.rc == l.holders && l.refused == 0 && l.holders < TWO_31
  }

  // The effect of one operation on a counter that means what it should: when each operation
  // succeeds, and exactly when it panics.
  lemma OperationMeaning(l: Ledger)
    requires Meaning(l)
    ensures var a := Apply(l, Acquire);
      && (a.panicked <==> if l.fused then l.refused == TWO_30 - 1 else l.holders == TWO_31 - 1)
      && (!a.panicked ==> Meaning(a) && a.holders == (if l.fused then l.holders else l.holders + 1))
      && (l.fused ==> a.holders == 0)
    ensures var r := Apply(l, Release);
      && (r.panicked <==> l.holders == 0)
      && (!r.panicked ==> Meaning(r) && !r.fused && r.holders == l.holders - 1)
    ensures var f := Apply(l, Fuse);
      && Meaning(f) && (f.fused <==> l.fused || l.holders == 0)
  {
    WrapInRange(l.rc + 1);
    WrapInRange(l.rc - 1);
    if l.fused {
      assert l.rc < 0;
    }
  }

  // Every run of well-behaved callers: no panic, an unfused counter is its number of holders, and
  // nobody acquires or holds a fused one.
  lemma {:induction false} EveryRunKeepsMeaning(ops: seq<Op>)
    requires WellBehaved(ops)
    ensures Meaning(Run(NEW, ops))
  {
    if ops != [] {
      EveryRunKeepsMeaning(ops[..|ops| - 1]);
      OperationMeaning(Run(NEW, ops[..|ops| - 1]));
    }
  }

  // Once fused, a counter stays fused and no later acquire succeeds.
  lemma {:induction false} FuseIsFinal(before: seq<Op>, after: seq<Op>)
    requires WellBehaved(before + after) && Run(NEW, before).fused
    ensures Run(NEW, before + after).fused && Run(NEW, before + after).holders == 0
    decreases |after|
  {
    var ops := before + after;
    EveryRunKeepsMeaning(ops);
    if after == [] {
      assert ops == before;
    } else {
      var rest := after[..|after| - 1];
      assert ops[..|ops| - 1] == before + rest;
      FuseIsFinal(before, rest);
      EveryRunKeepsMeaning(before + rest);
      OperationMeaning(Run(NEW, before + rest));
    }
  }
}
