/** Whole runs of the local quota counter: any interleaving of reservations, reports and
    settlements, from any number of callers, over a clock that never goes back. */
module LedgerRuns {
  import opened QuotaTypes
  import opened QuotaLedger
  import opened LedgerLaws
  import opened ReserveLaws

  datatype Event =
    | Reserving(trigger: Trigger, amount: nat, deadline: Option<nat>, id: LeaseId)
    | Updating(id: LeaseId, consumedTotal: nat, sequence: nat)
    | Finishing(id: LeaseId, consumedTotal: nat, sequence: nat)

  /** One critical section of the counter, entered at `now`. Dropping a lease is a `Finishing`
      whose result nobody looks at. */
  datatype Step = Step(now: nat, event: Event)

  ghost function After(ledger: Ledger, step: Step): Ledger {
    match step.event
    case Reserving(trigger, amount, deadline, id) => Reserve(ledger, trigger, amount, deadline, id, step.now).0
    case Updating(id, consumedTotal, sequence) => Update(ledger, id, consumedTotal, sequence, step.now).0
    case Finishing(id, consumedTotal, sequence) => Finish(ledger, id, consumedTotal, sequence, step.now).0
  }

  /** The step is one the callers can make: time has not gone back and a reservation is valid. */
  ghost predicate Possible(ledger: Ledger, clock: nat, step: Step) {
    && clock <= step.now
    && (step.event.Reserving? ==>
          Admissible(ledger, step.event.amount, step.event.deadline, step.event.id, step.now))
  }

  ghost function Run(start: Ledger, steps: seq<Step>): Ledger {
    if steps == [] then start else After(Run(start, steps[..|steps| - 1]), steps[|steps| - 1])
  }

  function Clock(clock: nat, steps: seq<Step>): nat {
    if steps == [] then clock else steps[|steps| - 1].now
  }

  ghost predicate PossibleRun(start: Ledger, clock: nat, steps: seq<Step>) {
    steps == [] ||
    var before := steps[..|steps| - 1];
    && PossibleRun(start, clock, before)
    && Possible(Run(start, before), Clock(clock, before), steps[|steps| - 1])
  }

  ghost predicate SafeRules(steps: seq<Step>, limits: Limits) {
    forall step :: step in steps && step.event.Reserving? ==>
      SafeTrigger(step.event.trigger) && WithinLimits(step.event.trigger, limits)
  }

  lemma StepKeepsSound(ledger: Ledger, clock: nat, step: Step)
    requires Sound(ledger, clock) && Possible(ledger, clock, step)
    ensures Sound(After(ledger, step), step.now)
  {
    match step.event
    case Reserving(trigger, amount, deadline, id) =>
      ReserveKeepsSound(ledger, trigger, amount, deadline, id, clock, step.now);
    case Updating(id, consumedTotal, sequence) =>
      UpdateKeepsSound(ledger, id, consumedTotal, sequence, clock, step.now);
    case Finishing(id, consumedTotal, sequence) =>
      FinishKeepsSound(ledger, id, consumedTotal, sequence, clock, step.now);
  }

  lemma StepKeepsBooks(ledger: Ledger, clock: nat, step: Step, limits: Limits)
    requires Sound(ledger, clock) && Possible(ledger, clock, step) && Books(ledger, limits)
    requires step.event.Reserving? ==> SafeTrigger(step.event.trigger) && WithinLimits(step.event.trigger, limits)
    ensures Books(After(ledger, step), limits)
  {
    match step.event
    case Reserving(trigger, amount, deadline, id) =>
      ReserveKeepsBooks(ledger, trigger, amount, deadline, id, clock, step.now, limits);
    case Updating(id, consumedTotal, sequence) =>
      UpdateKeepsBooks(ledger, id, consumedTotal, sequence, clock, step.now, limits);
    case Finishing(id, consumedTotal, sequence) =>
      FinishKeepsBooks(ledger, id, consumedTotal, sequence, clock, step.now, limits);
  }

  lemma {:induction false} RunKeepsSound(start: Ledger, clock: nat, steps: seq<Step>)
    requires Sound(start, clock) && PossibleRun(start, clock, steps)
    ensures Sound(Run(start, steps), Clock(clock, steps))
  {
    if steps != [] {
      var before := steps[..|steps| - 1];
      RunKeepsSound(start, clock, before);
      StepKeepsSound(Run(start, before), Clock(clock, before), steps[|steps| - 1]);
    }
  }

  lemma {:induction false} RunKeepsBooks(start: Ledger, clock: nat, steps: seq<Step>, limits: Limits)
    requires Sound(start, clock) && PossibleRun(start, clock, steps)
    requires Books(start, limits) && SafeRules(steps, limits)
    ensures Books(Run(start, steps), limits)
  {
    if steps != [] {
      var before := steps[..|steps| - 1];
      RunKeepsSound(start, clock, before);
      RunKeepsBooks(start, clock, before, limits);
      StepKeepsBooks(Run(start, before), Clock(clock, before), steps[|steps| - 1], limits);
    }
  }

  lemma EmptyBooks(limits: Limits)
    ensures Sound(EMPTY, 0) && Books(EMPTY, limits)
  {
    assert forall slot :: Occupied(EMPTY.concurrency, slot) == Total(EMPTY.leases, Occupying(slot));
  }

  /** Conservation and cap over every run: each window's reserved count is what the live leases
      hold in its current generation, its committed count is what settled leases finally spent
      in it, occupancy is what live leases occupy, and no limit is ever exceeded. */
  lemma {:induction false} LedgerBalancesOverEveryRun(steps: seq<Step>, limits: Limits)
    requires PossibleRun(EMPTY, 0, steps) && SafeRules(steps, limits)
    ensures var ledger := Run(EMPTY, steps);
            && (forall key :: key in ledger.windows ==>
                  var window := ledger.windows[key];
                  && window.reserved == Total(ledger.leases, Held(key, window.generation))
                  && window.committed == Total(ledger.retired, Spent(key, window.generation))
                  && key in limits.windows && window.committed + window.reserved <= limits.windows[key])
            && (forall slot :: slot in ledger.concurrency ==>
                  && ledger.concurrency[slot] == Total(ledger.leases, Occupying(slot))
                  && slot in limits.slots && ledger.concurrency[slot] <= limits.slots[slot])
            && (forall slot :: slot !in ledger.concurrency ==> Total(ledger.leases, Occupying(slot)) == 0)
  {
    EmptyBooks(limits);
    RunKeepsBooks(EMPTY, 0, steps, limits);
    var ledger := Run(EMPTY, steps);
    assert forall key :: key in ledger.windows ==> WindowBalanced(ledger, key);
    assert forall slot :: Occupied(ledger.concurrency, slot) == Total(ledger.leases, Occupying(slot));
  }

  // ---------- settled once ----------

  lemma ExpireKeepsRetired(ledger: Ledger, clock: nat, now: nat, id: LeaseId)
    requires Sound(ledger, clock) && id in ledger.retired
    ensures var after := Expire(ledger, now);
            id in after.retired && after.retired[id] == ledger.retired[id] && id !in after.leases
  {
  }

  /** `after` differs from `ledger`, as to leases and settlements, at most in the new lease `id`. */
  ghost predicate OnlyOpens(ledger: Ledger, after: Ledger, id: LeaseId) {
    && after.retired == ledger.retired && after.completed == ledger.completed
    && (after.leases == ledger.leases
        || (id in after.leases && after.leases == ledger.leases[id := after.leases[id]]))
  }

  lemma OpenFrame(ledger: Ledger, trigger: Trigger, amount: nat, expiresAt: nat, id: LeaseId, now: nat)
    ensures OnlyOpens(ledger, ReserveWindows(ledger, trigger, amount, expiresAt, id, now).0, id)
  {
    var asks := Asks(trigger.dimension, trigger.amounts);
    if Refusal(ledger.windows, asks, amount, now) == |asks| > 0 {
      var lease := WindowLease(trigger, amount, expiresAt, ReservationsOf(ledger.windows, asks, now));
      assert OnlyOpens(ledger, Admitted(ledger, KeysOf(asks), id, lease, now), id);
    }
  }

  lemma OccupyFrame(ledger: Ledger, trigger: Trigger, amount: nat, expiresAt: nat, id: LeaseId)
    ensures OnlyOpens(ledger, ReserveSlots(ledger, trigger, amount, expiresAt, id).0, id)
  {
  }

  /** Reserving leaves every other lease, and everything settled, as expiry left it. */
  lemma ReserveFrame(
      before: Ledger, trigger: Trigger, amount: nat, deadline: Option<nat>, id: LeaseId, now: nat)
    ensures OnlyOpens(Expire(before, now), Reserve(before, trigger, amount, deadline, id, now).0, id)
  {
    var ledger := Expire(before, now);
    if deadline.Some? && ReservesWindows(trigger) {
      OpenFrame(ledger, trigger, amount, deadline.value, id, now);
    } else if deadline.Some? && trigger.resource.Concurrency? {
      OccupyFrame(ledger, trigger, amount, deadline.value, id);
    } else {
      assert Reserve(before, trigger, amount, deadline, id, now).0 == ledger;
    }
  }

  /** Reporting on or settling one lease leaves all others as expiry left them. */
  lemma UpdateFrame(before: Ledger, id: LeaseId, consumedTotal: nat, sequence: nat, now: nat)
    ensures var ledger := Expire(before, now);
            var after := Update(before, id, consumedTotal, sequence, now).0;
            && after.retired == ledger.retired && after.completed == ledger.completed
            && (after.leases == ledger.leases
                || (id in ledger.leases && id in after.leases && after.leases == ledger.leases[id := after.leases[id]]))
  {
  }

  lemma FinishFrame(before: Ledger, id: LeaseId, consumedTotal: nat, sequence: nat, now: nat)
    ensures var ledger := Expire(before, now);
            var after := Finish(before, id, consumedTotal, sequence, now).0;
            || after == ledger
            || (&& id in ledger.leases
                && after.leases == ledger.leases - {id}
                && after.retired == ledger.retired[id := ledger.leases[id].(consumedTotal := consumedTotal)]
                && after.completed == ledger.completed[id := CompletedLease(consumedTotal, sequence, now + RETENTION)])
  {
    var ledger := Expire(before, now);
    if id in ledger.leases {
      var gone := map[id := ledger.leases[id].(consumedTotal := consumedTotal)];
      assert gone.Keys == {id};
      assert ledger.retired + gone == ledger.retired[id := gone[id]];
    }
  }

  lemma StepKeepsRetired(ledger: Ledger, clock: nat, step: Step, id: LeaseId)
    requires Sound(ledger, clock) && Possible(ledger, clock, step) && id in ledger.retired
    ensures var after := After(ledger, step);
            id in after.retired && after.retired[id] == ledger.retired[id] && id !in after.leases
  {
    ExpireKeepsRetired(ledger, clock, step.now, id);
    match step.event
    case Reserving(trigger, amount, deadline, other) =>
      ReserveFrame(ledger, trigger, amount, deadline, other, step.now);
    case Updating(other, consumedTotal, sequence) =>
      UpdateFrame(ledger, other, consumedTotal, sequence, step.now);
    case Finishing(other, consumedTotal, sequence) =>
      FinishFrame(ledger, other, consumedTotal, sequence, step.now);
  }

  /** A lease is settled at most once: whatever happens later, its final total stands. */
  lemma {:induction false} SettledOnce(start: Ledger, clock: nat, steps: seq<Step>, id: LeaseId)
    requires Sound(start, clock) && PossibleRun(start, clock, steps) && id in start.retired
    ensures var ledger := Run(start, steps);
            id !in ledger.leases && id in ledger.retired && ledger.retired[id] == start.retired[id]
  {
    if steps != [] {
      var before := steps[..|steps| - 1];
      SettledOnce(start, clock, before, id);
      RunKeepsSound(start, clock, before);
      StepKeepsRetired(Run(start, before), Clock(clock, before), steps[|steps| - 1], id);
    }
  }
}
