/** Everything that can go wrong outside the modelled code: a read or write that fails, a
    cancelled context, a callback that asks to stop. A plan, fixed beforehand, says which
    of these occasions do go wrong, so that a method can promise to give up for no other
    reason: under a plan without faults it has to succeed. */
module Outside {
  /** A file descriptor. */
  type Fd = nat

  /** How many of the first n occasions go wrong. */
  ghost function Planned(plan: nat -> bool, n: nat): nat {
    if n == 0 then 0 else Planned(plan, n - 1) + if plan(n - 1) then 1 else 0
  }

  class World {
    const plan: nat -> bool
    var asked: nat

    constructor (plan: nat -> bool)
      ensures this.plan == plan && asked == 0 && Faults() == 0
    {
      this.plan, asked := plan, 0;
    }

    /** What has gone wrong so far. */
    ghost function Faults(): nat
      reads this
    {
      Planned(plan, asked)
    }

    /** Something has gone wrong since an earlier moment. */
    ghost predicate FaultSince(moment: nat)
      reads this
    {
      exists i :: moment <= i < asked && plan(i)
    }

    lemma Blame(moment: nat)
      ensures Faults() > Planned(plan, moment) ==> FaultSince(moment)
    {
      if Faults() > Planned(plan, moment) {
        var i := FaultWasPlanned(plan, moment, asked);
      }
    }

    method Fails() returns (yes: bool)
      modifies this
      ensures asked == old(asked) + 1 && yes == plan(old(asked))
      ensures Faults() == old(Faults()) + if yes then 1 else 0
    {
      yes := plan(asked);
      asked := asked + 1;
    }
  }

  /** Success, unless something outside has gone wrong. */
  predicate Unless(ok: bool, faultsBefore: nat, faultsAfter: nat) {
    if ok then faultsAfter == faultsBefore else faultsAfter > faultsBefore
  }

  lemma {:induction false} PlannedGrows(plan: nat -> bool, a: nat, b: nat)
    requires a <= b
    ensures Planned(plan, a) <= Planned(plan, b)
    decreases b
  {
    if a < b {
      PlannedGrows(plan, a, b - 1);
    }
  }

  /** When the count has gone up between two moments, the plan has a fault in between. */
  lemma {:induction false} FaultWasPlanned(plan: nat -> bool, a: nat, b: nat) returns (i: nat)
    requires Planned(plan, b) > Planned(plan, a)
    ensures a <= i < b && plan(i)
    decreases b
  {
    if b <= a {
      PlannedGrows(plan, b, a);
    }
    i := b - 1;
    if !plan(b - 1) {
      i := FaultWasPlanned(plan, a, b - 1);
    }
  }
}
