/** Which rules keep the books. A trigger that names one window length twice charges a lease more than
    once for one reservation and so passes its own limit, and a limit of `u32::MAX` lets a counter wrap
    around. */
module RuleConditions {
  import opened QuotaTypes
  import opened QuotaLedger
  import opened LedgerSums
  import opened LedgerLaws
  import opened ReserveLaws
  import opened LedgerRuns

  ghost predicate UsesOnly(steps: seq<Step>, trigger: Trigger) {
    forall step :: step in steps && step.event.Reserving? ==> step.event.trigger == trigger
  }

  /** No live lease is charged more than it reserved in any one window. */
  ghost predicate ChargesOnce(ledger: Ledger) {
    forall id, key, generation :: id in ledger.leases ==>
      Weight(Held(key, generation), ledger.leases[id]) <= ledger.leases[id].reservedAmount
  }

  /** No window of the trigger holds more than the trigger allows in it. */
  ghost predicate KeepsCap(ledger: Ledger, trigger: Trigger) {
    forall ask :: ask in Asks(trigger.dimension, trigger.amounts) && ask.key in ledger.windows ==>
      ledger.windows[ask.key].committed + ledger.windows[ask.key].reserved <= ask.maxAmount
  }

  ghost predicate Faithful(ledger: Ledger, trigger: Trigger) {
    Balanced(ledger) && ChargesOnce(ledger) && KeepsCap(ledger, trigger)
  }

  predicate Bounded(trigger: Trigger) {
    forall ask :: ask in Asks(trigger.dimension, trigger.amounts) ==> ask.maxAmount < U32_MAX
  }

  // ---------- the limits one trigger stands for ----------

  function MaxFor(asks: seq<Ask>, key: WindowKey): nat {
    if asks == [] then 0
    else if asks[|asks| - 1].key == key then asks[|asks| - 1].maxAmount
    else MaxFor(asks[..|asks| - 1], key)
  }

  lemma {:induction false} MaxForAsk(asks: seq<Ask>, at: nat)
    requires DistinctKeys(asks) && at < |asks|
    ensures MaxFor(asks, asks[at].key) == asks[at].maxAmount
  {
    if at < |asks| - 1 {
      assert asks[at].key != asks[|asks| - 1].key;
      MaxForAsk(asks[..|asks| - 1], at);
    }
  }

  function OwnLimits(trigger: Trigger): Limits {
    var asks := Asks(trigger.dimension, trigger.amounts);
    Limits(
      map key | key in KeysOf(asks) :: MaxFor(asks, key),
      if trigger.concurrencyMax.Some? then map[trigger.slot := trigger.concurrencyMax.value] else map[])
  }

  lemma OwnLimitsHold(trigger: Trigger)
    requires SafeTrigger(trigger) && ReservesWindows(trigger) && Bounded(trigger)
    ensures WithinLimits(trigger, OwnLimits(trigger))
  {
    var asks := Asks(trigger.dimension, trigger.amounts);
    forall ask | ask in asks
      ensures ask.key in OwnLimits(trigger).windows && ask.maxAmount <= OwnLimits(trigger).windows[ask.key] < U32_MAX
    {
      var at :| 0 <= at < |asks| && asks[at] == ask;
      MaxForAsk(asks, at);
      assert asks[at].key in KeysOf(asks);
    }
  }

  // ---------- sufficiency ----------

  ghost predicate AllSeparate(ledger: Ledger) {
    forall id :: id in ledger.leases ==> Separate(ledger.leases[id])
  }

  lemma SeparateChargesOnce(lease: LocalLease, key: WindowKey, generation: nat)
    requires Separate(lease)
    ensures Weight(Held(key, generation), lease) <= lease.reservedAmount
  {
    if Reservation(key, generation) in lease.windows {
      var at :| 0 <= at < |lease.windows| && lease.windows[at] == Reservation(key, generation);
      ChargeOnce(lease.windows, at, lease.reservedAmount);
    } else {
      ChargeAbsent(lease.windows, key, generation, lease.reservedAmount);
    }
  }

  lemma OpenSeparates(ledger: Ledger, trigger: Trigger, amount: nat, expiresAt: nat, id: LeaseId, now: nat)
    requires AllSeparate(ledger) && DistinctKeys(Asks(trigger.dimension, trigger.amounts))
    ensures AllSeparate(ReserveWindows(ledger, trigger, amount, expiresAt, id, now).0)
  {
    var asks := Asks(trigger.dimension, trigger.amounts);
    var rs := ReservationsOf(ledger.windows, asks, now);
    assert forall i :: 0 <= i < |rs| ==> rs[i].key == asks[i].key;
    assert Separate(WindowLease(trigger, amount, expiresAt, rs));
  }

  lemma StepSeparates(ledger: Ledger, step: Step)
    requires AllSeparate(ledger)
    requires step.event.Reserving? && ReservesWindows(step.event.trigger) ==>
               DistinctKeys(Asks(step.event.trigger.dimension, step.event.trigger.amounts))
    ensures AllSeparate(After(ledger, step))
  {
    var expired := Expire(ledger, step.now);
    assert AllSeparate(expired);
    match step.event
    case Reserving(trigger, amount, deadline, id) =>
      if deadline.Some? && ReservesWindows(trigger) {
        OpenSeparates(expired, trigger, amount, deadline.value, id, step.now);
      }
    case Updating(id, consumedTotal, sequence) => UpdateFrame(ledger, id, consumedTotal, sequence, step.now);
    case Finishing(id, consumedTotal, sequence) => FinishFrame(ledger, id, consumedTotal, sequence, step.now);
  }

  lemma {:induction false} RunSeparates(steps: seq<Step>, trigger: Trigger)
    requires UsesOnly(steps, trigger) && DistinctKeys(Asks(trigger.dimension, trigger.amounts))
    ensures AllSeparate(Run(EMPTY, steps))
  {
    if steps != [] {
      var before := steps[..|steps| - 1];
      RunSeparates(before, trigger);
      assert steps[|steps| - 1] in steps;
      StepSeparates(Run(EMPTY, before), steps[|steps| - 1]);
    }
  }

  lemma OwnLimitsCap(ledger: Ledger, trigger: Trigger)
    requires ReservesWindows(trigger) && SafeTrigger(trigger) && Capped(ledger, OwnLimits(trigger))
    ensures KeepsCap(ledger, trigger)
  {
    var asks := Asks(trigger.dimension, trigger.amounts);
    forall ask | ask in asks && ask.key in ledger.windows
      ensures ledger.windows[ask.key].committed + ledger.windows[ask.key].reserved <= ask.maxAmount
    {
      var at :| 0 <= at < |asks| && asks[at] == ask;
      MaxForAsk(asks, at);
    }
  }

  lemma SafeTriggerIsFaithful(steps: seq<Step>, trigger: Trigger)
    requires ReservesWindows(trigger) && SafeTrigger(trigger) && Bounded(trigger)
    requires PossibleRun(EMPTY, 0, steps) && UsesOnly(steps, trigger)
    ensures Faithful(Run(EMPTY, steps), trigger)
  {
    OwnLimitsHold(trigger);
    EmptyBooks(OwnLimits(trigger));
    RunKeepsBooks(EMPTY, 0, steps, OwnLimits(trigger));
    RunSeparates(steps, trigger);
    var ledger := Run(EMPTY, steps);
    OwnLimitsCap(ledger, trigger);
    forall id, key, generation | id in ledger.leases
      ensures Weight(Held(key, generation), ledger.leases[id]) <= ledger.leases[id].reservedAmount
    {
      SeparateChargesOnce(ledger.leases[id], key, generation);
    }
  }

  // ---------- necessity ----------

  lemma {:induction false} ChargeTwice(rs: seq<Reservation>, i: nat, j: nat, amount: nat)
    requires i < j < |rs| && rs[i] == rs[j]
    ensures Charge(rs, rs[i].key, rs[i].generation, amount) >= 2 * amount
  {
    var rest := rs[..|rs| - 1];
    if j == |rs| - 1 {
      ChargeSome(rest, i, amount);
    } else {
      ChargeTwice(rest, i, j, amount);
    }
  }

  lemma {:induction false} ChargeSome(rs: seq<Reservation>, i: nat, amount: nat)
    requires i < |rs|
    ensures Charge(rs, rs[i].key, rs[i].generation, amount) >= amount
  {
    if i < |rs| - 1 {
      ChargeSome(rs[..|rs| - 1], i, amount);
    }
  }

  lemma {:induction false} EmptyFits(asks: seq<Ask>, amount: nat)
    requires amount <= U32_MAX && forall ask :: ask in asks ==> amount <= ask.maxAmount
    ensures Refusal(map[], asks, amount, 0) == |asks|
    decreases |asks|
  {
    if asks != [] {
      EmptyFits(asks[1..], amount);
    }
  }

  lemma ExpireEmpty(now: nat)
    ensures Expire(EMPTY, now) == EMPTY
  {
  }

  lemma OneStep(step: Step, after: Ledger) returns (steps: seq<Step>)
    requires Possible(EMPTY, 0, step) && after == After(EMPTY, step)
    ensures PossibleRun(EMPTY, 0, steps) && Run(EMPTY, steps) == after
    ensures |steps| == 1 && forall other :: other in steps ==> other == step
  {
    steps := [step];
    assert steps[..0] == [];
    assert PossibleRun(EMPTY, 0, []) && Run(EMPTY, []) == EMPTY;
  }

  lemma TwoSteps(first: Step, before: Ledger, second: Step, after: Ledger) returns (steps: seq<Step>)
    requires Possible(EMPTY, 0, first) && before == After(EMPTY, first)
    requires Possible(before, first.now, second) && after == After(before, second)
    ensures PossibleRun(EMPTY, 0, steps) && Run(EMPTY, steps) == after
    ensures |steps| == 2 && forall other :: other in steps ==> other == first || other == second
  {
    var one := OneStep(first, before);
    assert one[0] in one;
    steps := one + [second];
    assert steps[..|steps| - 1] == one;
  }

  function FirstStep(trigger: Trigger, amount: nat): Step {
    Step(0, Reserving(trigger, amount, Some(1), "first"))
  }

  lemma FirstReservation(trigger: Trigger, asks: seq<Ask>, lease: LocalLease, amount: nat)
    requires ReservesWindows(trigger) && asks == Asks(trigger.dimension, trigger.amounts) && asks != []
    requires 0 < amount <= U32_MAX && forall ask :: ask in asks ==> amount <= ask.maxAmount
    requires lease == WindowLease(trigger, amount, 1, ReservationsOf(map[], asks, 0))
    ensures Possible(EMPTY, 0, FirstStep(trigger, amount))
    ensures After(EMPTY, FirstStep(trigger, amount)) == Admitted(EMPTY, KeysOf(asks), "first", lease, 0)
  {
    ExpireEmpty(0);
    EmptyFits(asks, amount);
  }

  lemma RepeatedKeyWeighsTwice(asks: seq<Ask>, lease: LocalLease) returns (measure: Measure)
    requires !DistinctKeys(asks)
    requires lease.accounting.Consumable? && lease.windows == ReservationsOf(map[], asks, 0)
    ensures measure.Held? && Weight(measure, lease) >= 2 * lease.reservedAmount
  {
    var i, j :| 0 <= i < j < |asks| && asks[i].key == asks[j].key;
    assert lease.windows[i] == lease.windows[j];
    ChargeTwice(lease.windows, i, j, lease.reservedAmount);
    measure := Held(lease.windows[i].key, lease.windows[i].generation);
  }

  lemma Overcharged(ledger: Ledger, id: LeaseId, lease: LocalLease, measure: Measure)
    requires id in ledger.leases && ledger.leases[id] == lease && measure.Held?
        && Weight(measure, lease) > lease.reservedAmount
    ensures !ChargesOnce(ledger)
  {
    assert Weight(Held(measure.key, measure.generation), ledger.leases[id]) > ledger.leases[id].reservedAmount;
  }

  /** One reservation of one unit is enough to charge a lease more than its amount. */
  lemma RepeatedWindowOvercharges(trigger: Trigger) returns (steps: seq<Step>)
    requires ReservesWindows(trigger) && !DistinctKeys(Asks(trigger.dimension, trigger.amounts))
    ensures PossibleRun(EMPTY, 0, steps) && UsesOnly(steps, trigger) && |steps| == 1
    ensures !ChargesOnce(Run(EMPTY, steps))
  {
    var asks := Asks(trigger.dimension, trigger.amounts);
    var lease := WindowLease(trigger, 1, 1, ReservationsOf(map[], asks, 0));
    AsksAreWhole(trigger.dimension, trigger.amounts);
    FirstReservation(trigger, asks, lease, 1);
    var after := Admitted(EMPTY, KeysOf(asks), "first", lease, 0);
    steps := OneStep(FirstStep(trigger, 1), after);
    var measure := RepeatedKeyWeighsTwice(asks, lease);
    Overcharged(after, "first", lease, measure);
  }

  ghost predicate AlwaysFaithful(trigger: Trigger) {
    forall steps :: PossibleRun(EMPTY, 0, steps) && UsesOnly(steps, trigger) ==> Faithful(Run(EMPTY, steps), trigger)
  }

  lemma SafeTriggerIsAlwaysFaithful(trigger: Trigger)
    requires ReservesWindows(trigger) && SafeTrigger(trigger) && Bounded(trigger)
    ensures AlwaysFaithful(trigger)
  {
    forall steps | PossibleRun(EMPTY, 0, steps) && UsesOnly(steps, trigger)
      ensures Faithful(Run(EMPTY, steps), trigger)
    {
      SafeTriggerIsFaithful(steps, trigger);
    }
  }

  /** A window trigger with limits below `u32::MAX` balances, charges a lease once and keeps its limits in
      every run exactly when no two of its windows have the same length. */
  lemma FaithfulIffDistinctWindows(trigger: Trigger)
    requires ReservesWindows(trigger) && Bounded(trigger)
    ensures AlwaysFaithful(trigger) <==> DistinctKeys(Asks(trigger.dimension, trigger.amounts))
  {
    if DistinctKeys(Asks(trigger.dimension, trigger.amounts)) {
      SafeTriggerIsAlwaysFaithful(trigger);
    } else {
      var steps := RepeatedWindowOvercharges(trigger);
      assert !Faithful(Run(EMPTY, steps), trigger);
    }
  }

  // ---------- passing the limit ----------

  function Copies(asks: seq<Ask>, key: WindowKey): nat {
    if asks == [] then 0
    else Copies(asks[..|asks| - 1], key) + if asks[|asks| - 1].key == key then 1 else 0
  }

  lemma {:induction false} CopiesBound(asks: seq<Ask>, key: WindowKey)
    ensures Copies(asks, key) <= |asks|
    ensures (exists i :: 0 <= i < |asks| && asks[i].key == key) ==> Copies(asks, key) >= 1
  {
    if asks != [] {
      CopiesBound(asks[..|asks| - 1], key);
      if i :| 0 <= i < |asks| - 1 && asks[i].key == key {
        assert asks[..|asks| - 1][i].key == key;
      }
    }
  }

  lemma {:induction false} DemandPerCopy(asks: seq<Ask>, key: WindowKey, amount: nat)
    ensures Demand(asks, key, amount) == Copies(asks, key) * amount
  {
    if asks != [] {
      var init := asks[..|asks| - 1];
      DemandPerCopy(init, key, amount);
      assert (Copies(init, key) + 1) * amount == Copies(init, key) * amount + amount;
    }
  }

  /** The least amount that, charged so many times, passes the limit. */
  function Overflow(limit: nat, copies: nat): nat
    requires copies >= 1
  {
    limit / copies + 1
  }

  lemma OverflowPasses(limit: nat, copies: nat)
    requires copies >= 1
    ensures limit < copies * Overflow(limit, copies) <= limit + copies
  {
    assert copies * Overflow(limit, copies) == copies * (limit / copies) + copies;
  }

  lemma TimesGrows(n: nat, a: nat, b: nat)
    ensures a <= b ==> n * a <= n * b
  {
  }

  lemma OverflowWithin(limit: nat, copies: nat, bound: nat)
    requires copies >= 1 && limit < copies * bound
    ensures Overflow(limit, copies) <= bound
  {
    TimesGrows(copies, bound, limit / copies);
    assert copies * (limit / copies) <= limit;
  }

  /** The least limit of the trigger, charged once per ask for window `at`, passes that window's limit; the
      limit itself leaves room below `u32::MAX` for one unit per ask. */
  predicate Tight(asks: seq<Ask>, at: nat)
    requires at < |asks|
  {
    && asks[at].maxAmount + |asks| <= U32_MAX
    && forall j :: 0 <= j < |asks| ==> asks[at].maxAmount < Copies(asks, asks[at].key) * asks[j].maxAmount
  }

  lemma FirstCharge(asks: seq<Ask>, key: WindowKey, lease: LocalLease)
    requires lease.windows == ReservationsOf(map[], asks, 0) && key in KeysOf(asks)
    requires Copies(asks, key) * lease.reservedAmount <= U32_MAX
    ensures var windows := Admitted(EMPTY, KeysOf(asks), "first", lease, 0).windows;
            key in windows && windows[key].reserved == Copies(asks, key) * lease.reservedAmount
  {
    ChargeIsDemand(map[], asks, lease.reservedAmount, 0, key);
    DemandPerCopy(asks, key, lease.reservedAmount);
  }

  lemma PassingAmount(asks: seq<Ask>, at: nat) returns (amount: nat)
    requires at < |asks| && Tight(asks, at)
    ensures 0 < amount <= U32_MAX && forall ask :: ask in asks ==> amount <= ask.maxAmount
    ensures asks[at].maxAmount < Copies(asks, asks[at].key) * amount <= U32_MAX
  {
    var copies, limit := Copies(asks, asks[at].key), asks[at].maxAmount;
    CopiesBound(asks, asks[at].key);
    OverflowPasses(limit, copies);
    amount := Overflow(limit, copies);
    forall ask | ask in asks
      ensures amount <= ask.maxAmount
    {
      OverflowWithin(limit, copies, ask.maxAmount);
    }
    assert amount <= asks[at].maxAmount;
  }

  /** A repeated window length whose limit is less than the least limit of the trigger, charged once per ask,
      lets one reservation pass that limit. */
  lemma RepeatedWindowPassesLimit(trigger: Trigger, asks: seq<Ask>, at: nat) returns (steps: seq<Step>)
    requires ReservesWindows(trigger) && asks == Asks(trigger.dimension, trigger.amounts)
    requires at < |asks| && Tight(asks, at)
    ensures PossibleRun(EMPTY, 0, steps) && UsesOnly(steps, trigger) && |steps| == 1
    ensures var windows := Run(EMPTY, steps).windows;
            asks[at].key in windows && windows[asks[at].key].reserved > asks[at].maxAmount
  {
    var amount := PassingAmount(asks, at);
    var lease := WindowLease(trigger, amount, 1, ReservationsOf(map[], asks, 0));
    FirstReservation(trigger, asks, lease, amount);
    var after := Admitted(EMPTY, KeysOf(asks), "first", lease, 0);
    FirstCharge(asks, asks[at].key, lease);
    steps := OneStep(FirstStep(trigger, amount), after);
  }

  ghost predicate AlwaysCapped(trigger: Trigger) {
    forall steps :: PossibleRun(EMPTY, 0, steps) && UsesOnly(steps, trigger) ==> KeepsCap(Run(EMPTY, steps), trigger)
  }

  lemma PassedLimitIsNotKept(trigger: Trigger, asks: seq<Ask>, at: nat)
    requires ReservesWindows(trigger) && asks == Asks(trigger.dimension, trigger.amounts)
    requires at < |asks| && Tight(asks, at)
    ensures !AlwaysCapped(trigger)
  {
    var steps := RepeatedWindowPassesLimit(trigger, asks, at);
    assert asks[at] in asks;
    assert !KeepsCap(Run(EMPTY, steps), trigger);
  }

  /** Where the limits of repeated lengths are that tight, a trigger keeps its limits in every run exactly when
      it repeats none. */
  lemma CapIffDistinctWindows(trigger: Trigger)
    requires ReservesWindows(trigger) && Bounded(trigger)
    requires var asks := Asks(trigger.dimension, trigger.amounts);
             forall i, j :: 0 <= i < j < |asks| && asks[i].key == asks[j].key ==> Tight(asks, i) || Tight(asks, j)
    ensures AlwaysCapped(trigger) <==> DistinctKeys(Asks(trigger.dimension, trigger.amounts))
  {
    var asks := Asks(trigger.dimension, trigger.amounts);
    if DistinctKeys(asks) {
      SafeTriggerIsAlwaysFaithful(trigger);
    } else {
      var i, j :| 0 <= i < j < |asks| && asks[i].key == asks[j].key;
      PassedLimitIsNotKept(trigger, asks, if Tight(asks, i) then i else j);
    }
  }

  // ---------- the largest limit ----------

  function SecondStep(trigger: Trigger): Step {
    Step(0, Reserving(trigger, 1, Some(1), "second"))
  }

  lemma WrappedIsUnbalanced(before: Ledger, after: Ledger, trigger: Trigger, key: WindowKey)
    requires "second" !in before.leases
    requires after.leases == before.leases["second" := WindowLease(trigger, 1, 1, [Reservation(key, 0)])]
    requires key in after.windows && after.windows[key] == QuotaWindow(0, 0, 0, 0)
    ensures !Balanced(after)
  {
    ChargeOnce([Reservation(key, 0)], 0, 1);
    TotalInsert(before.leases, "second", after.leases["second"], Held(key, 0));
    assert !WindowBalanced(after, key);
  }

  /** The window filled to the limit by the first reservation. */
  predicate Full(before: Ledger, key: WindowKey) {
    && before.windows == map[key := QuotaWindow(0, 0, 0, U32_MAX)]
    && before.leases.Keys == {"first"} && before.leases["first"].expiresAt == 1
    && before.retired == map[] && before.completed == map[] && before.concurrency == map[]
  }

  lemma FillsWindow(trigger: Trigger, ask: Ask, before: Ledger, lease: LocalLease)
    requires lease == WindowLease(trigger, U32_MAX, 1, ReservationsOf(map[], [ask], 0))
    requires before == Admitted(EMPTY, KeysOf([ask]), "first", lease, 0)
    ensures Full(before, ask.key)
  {
    assert lease.windows == [Reservation(ask.key, 0)];
    ChargeOnce(lease.windows, 0, U32_MAX);
    assert [ask][0].key in KeysOf([ask]);
  }

  lemma SecondReservation(before: Ledger, trigger: Trigger, ask: Ask, after: Ledger)
    requires ReservesWindows(trigger) && Asks(trigger.dimension, trigger.amounts) == [ask] && ask.maxAmount == U32_MAX
    requires ask.key.seconds >= 1 && Full(before, ask.key)
    requires after == Reserve(before, trigger, 1, Some(1), "second", 0).0
    ensures ask.key in after.windows && after.windows[ask.key] == QuotaWindow(0, 0, 0, 0)
    ensures after.leases == before.leases["second" := WindowLease(trigger, 1, 1, [Reservation(ask.key, 0)])]
  {
    FreshIsFixed(before, 0);
    var asks := [ask];
    assert Fits(before.windows, ask, 1, 0);
    assert asks[1..] == [];
    assert Refusal(before.windows, asks, 1, 0) == 1;
    var rs := ReservationsOf(before.windows, asks, 0);
    assert rs == [Reservation(ask.key, 0)];
    ChargeOnce(rs, 0, 1);
    assert asks[0].key in KeysOf(asks);
  }

  lemma SecondIsPossible(before: Ledger, trigger: Trigger)
    requires "second" !in before.leases && "second" !in before.retired
    ensures Possible(before, 0, SecondStep(trigger))
    ensures After(before, SecondStep(trigger)) == Reserve(before, trigger, 1, Some(1), "second", 0).0
  {
  }

  /** With a limit of `u32::MAX` a second reservation is admitted and the counter wraps to zero. */
  lemma LargestLimitWraps(trigger: Trigger, ask: Ask) returns (steps: seq<Step>)
    requires ReservesWindows(trigger) && Asks(trigger.dimension, trigger.amounts) == [ask] && ask.maxAmount == U32_MAX
    ensures PossibleRun(EMPTY, 0, steps) && UsesOnly(steps, trigger) && |steps| == 2
    ensures var after := Run(EMPTY, steps);
            ask.key in after.windows && after.windows[ask.key].reserved == 0 && !Balanced(after)
  {
    AsksAreWhole(trigger.dimension, trigger.amounts);
    var lease := WindowLease(trigger, U32_MAX, 1, ReservationsOf(map[], [ask], 0));
    var before := Admitted(EMPTY, KeysOf([ask]), "first", lease, 0);
    FirstReservation(trigger, [ask], lease, U32_MAX);
    FillsWindow(trigger, ask, before, lease);
    SecondIsPossible(before, trigger);
    var after := Reserve(before, trigger, 1, Some(1), "second", 0).0;
    SecondReservation(before, trigger, ask, after);
    WrappedIsUnbalanced(before, after, trigger, ask.key);
    steps := TwoSteps(FirstStep(trigger, U32_MAX), before, SecondStep(trigger), after);
  }

  /** The slot filled to the limit by the first reservation. */
  function FullSlot(trigger: Trigger): Ledger {
    EMPTY.(concurrency := map[trigger.slot := U32_MAX], leases := map["first" := SlotLease(trigger, U32_MAX, 1)])
  }

  lemma FillsSlot(trigger: Trigger)
    requires trigger.resource.Concurrency? && trigger.concurrencyMax == Some(U32_MAX)
    ensures Possible(EMPTY, 0, FirstStep(trigger, U32_MAX))
    ensures After(EMPTY, FirstStep(trigger, U32_MAX)) == FullSlot(trigger)
  {
    ExpireEmpty(0);
  }

  lemma SecondSlot(trigger: Trigger, before: Ledger, after: Ledger)
    requires trigger.resource.Concurrency? && trigger.concurrencyMax == Some(U32_MAX) && before == FullSlot(trigger)
    requires after == Reserve(before, trigger, 1, Some(1), "second", 0).0
    ensures Occupied(after.concurrency, trigger.slot) == 0
    ensures after.leases == before.leases["second" := SlotLease(trigger, 1, 1)]
  {
    FreshIsFixed(before, 0);
  }

  lemma VacantIsUnbalanced(before: Ledger, after: Ledger, trigger: Trigger)
    requires "second" !in before.leases && Occupied(after.concurrency, trigger.slot) == 0
    requires after.leases == before.leases["second" := SlotLease(trigger, 1, 1)]
    ensures !Balanced(after)
  {
    TotalInsert(before.leases, "second", SlotLease(trigger, 1, 1), Occupying(trigger.slot));
    assert Occupied(after.concurrency, trigger.slot) != Total(after.leases, Occupying(trigger.slot));
  }

  /** With a limit of `u32::MAX` a second reservation wraps the occupancy to zero. */
  lemma LargestSlotWraps(trigger: Trigger) returns (steps: seq<Step>)
    requires trigger.resource.Concurrency? && trigger.concurrencyMax == Some(U32_MAX)
    ensures PossibleRun(EMPTY, 0, steps) && UsesOnly(steps, trigger) && |steps| == 2
    ensures Occupied(Run(EMPTY, steps).concurrency, trigger.slot) == 0 && !Balanced(Run(EMPTY, steps))
  {
    var before := FullSlot(trigger);
    FillsSlot(trigger);
    SecondIsPossible(before, trigger);
    var after := Reserve(before, trigger, 1, Some(1), "second", 0).0;
    SecondSlot(trigger, before, after);
    VacantIsUnbalanced(before, after, trigger);
    steps := TwoSteps(FirstStep(trigger, U32_MAX), before, SecondStep(trigger), after);
  }

  // ---------- all rules under given limits ----------

  /** The limits a configuration can express. */
  predicate Expressible(limits: Limits) {
    && (forall key :: key in limits.windows ==> key.seconds >= 1 && 0 < limits.windows[key] <= U32_MAX)
    && (forall slot :: slot in limits.slots ==> limits.slots[slot] <= U32_MAX)
  }

  predicate BelowLargest(limits: Limits) {
    && (forall key :: key in limits.windows ==> limits.windows[key] < U32_MAX)
    && (forall slot :: slot in limits.slots ==> limits.slots[slot] < U32_MAX)
  }

  /** Every reservation is made under a rule inside the limits that repeats no window length. */
  ghost predicate UsesInside(steps: seq<Step>, limits: Limits) {
    forall step :: step in steps && step.event.Reserving? ==>
      SafeTrigger(step.event.trigger) && Inside(step.event.trigger, limits)
  }

  /** The counters are the sums over leases and stay inside the limits. */
  ghost predicate InOrder(ledger: Ledger, limits: Limits) {
    && Balanced(ledger)
    && (forall key :: key in ledger.windows ==>
          key in limits.windows && ledger.windows[key].committed + ledger.windows[key].reserved <= limits.windows[key])
    && (forall slot :: slot in ledger.concurrency ==>
          slot in limits.slots && ledger.concurrency[slot] <= limits.slots[slot])
  }

  ghost predicate AlwaysInOrder(limits: Limits) {
    forall steps :: PossibleRun(EMPTY, 0, steps) && UsesInside(steps, limits) ==> InOrder(Run(EMPTY, steps), limits)
  }

  lemma BelowLargestStaysInOrder(limits: Limits)
    requires BelowLargest(limits)
    ensures AlwaysInOrder(limits)
  {
    forall steps | PossibleRun(EMPTY, 0, steps) && UsesInside(steps, limits)
      ensures InOrder(Run(EMPTY, steps), limits)
    {
      EmptyBooks(limits);
      RunKeepsBooks(EMPTY, 0, steps, limits);
    }
  }

  lemma UnbalancedIsNotInOrder(steps: seq<Step>, trigger: Trigger, limits: Limits)
    requires PossibleRun(EMPTY, 0, steps) && !Balanced(Run(EMPTY, steps))
    requires UsesOnly(steps, trigger) && SafeTrigger(trigger) && Inside(trigger, limits)
    ensures !AlwaysInOrder(limits)
  {
    assert UsesInside(steps, limits);
    assert !InOrder(Run(EMPTY, steps), limits);
  }

  /** A rule with this one window, or with this one slot, and the largest limit. */
  function TokenRule(key: WindowKey): Trigger {
    Trigger(TriggerResource.Token, [Amount(U32_MAX, Some(key.seconds))], None, key.dimension, "")
  }

  function SlotRule(slot: string): Trigger {
    Trigger(TriggerResource.Concurrency, [], Some(U32_MAX), "", slot)
  }

  lemma TokenRuleAsks(key: WindowKey)
    requires key.seconds >= 1
    ensures ReservesWindows(TokenRule(key))
    ensures Asks(TokenRule(key).dimension, TokenRule(key).amounts) == [Ask(key, U32_MAX)]
  {
    assert TokenRule(key).amounts[..0] == [];
  }

  lemma WindowAtLargestWraps(limits: Limits, key: WindowKey)
    requires Expressible(limits) && key in limits.windows && limits.windows[key] == U32_MAX
    ensures !AlwaysInOrder(limits)
  {
    TokenRuleAsks(key);
    var steps := LargestLimitWraps(TokenRule(key), Ask(key, U32_MAX));
    UnbalancedIsNotInOrder(steps, TokenRule(key), limits);
  }

  lemma SlotAtLargestWraps(limits: Limits, slot: string)
    requires Expressible(limits) && slot in limits.slots && limits.slots[slot] == U32_MAX
    ensures !AlwaysInOrder(limits)
  {
    var steps := LargestSlotWraps(SlotRule(slot));
    UnbalancedIsNotInOrder(steps, SlotRule(slot), limits);
  }

  /** Under rules that repeat no window length, every run balances and stays inside the limits exactly when
      every limit, of window or slot, is below `u32::MAX`. */
  lemma InOrderIffBelowLargest(limits: Limits)
    requires Expressible(limits)
    ensures AlwaysInOrder(limits) <==> BelowLargest(limits)
  {
    if BelowLargest(limits) {
      BelowLargestStaysInOrder(limits);
    } else if key :| key in limits.windows && limits.windows[key] == U32_MAX {
      WindowAtLargestWraps(limits, key);
    } else {
      var slot :| slot in limits.slots && limits.slots[slot] == U32_MAX;
      SlotAtLargestWraps(limits, slot);
    }
  }

  // ---------- any rules, run by run ----------

  /** Whatever the rules repeat, the step adds to no window more than there is room for. */
  ghost predicate StepHasRoom(ledger: Ledger, step: Step, limits: Limits) {
    step.event.Reserving? ==>
      HasRoom(ledger, step.event.trigger, step.event.amount, step.event.deadline, step.now, limits)
  }

  ghost predicate AlwaysRoom(start: Ledger, steps: seq<Step>, limits: Limits) {
    forall i :: 0 <= i < |steps| ==> StepHasRoom(Run(start, steps[..i]), steps[i], limits)
  }

  ghost predicate StaysInOrder(start: Ledger, steps: seq<Step>, limits: Limits) {
    forall i :: 0 <= i <= |steps| ==> InOrder(Run(start, steps[..i]), limits)
  }

  ghost predicate AllInside(steps: seq<Step>, limits: Limits) {
    forall step :: step in steps && step.event.Reserving? ==> Inside(step.event.trigger, limits)
  }

  lemma RoomyStepStaysInOrder(ledger: Ledger, clock: nat, step: Step, limits: Limits)
    requires Sound(ledger, clock) && Possible(ledger, clock, step) && Expressible(limits) && InOrder(ledger, limits)
    requires step.event.Reserving? ==> Inside(step.event.trigger, limits)
    requires StepHasRoom(ledger, step, limits)
    ensures InOrder(After(ledger, step), limits)
  {
    match step.event
    case Reserving(trigger, amount, deadline, id) =>
      RoomKeepsBooks(ledger, trigger, amount, deadline, id, clock, step.now, limits);
    case Updating(id, consumedTotal, sequence) =>
      UpdateKeepsBooks(ledger, id, consumedTotal, sequence, clock, step.now, limits);
    case Finishing(id, consumedTotal, sequence) =>
      FinishKeepsBooks(ledger, id, consumedTotal, sequence, clock, step.now, limits);
  }

  /** What an admitted reservation does to the books of one window. */
  lemma AdmissionFillsWindow(
      expired: Ledger, asks: seq<Ask>, now: nat, id: LeaseId, lease: LocalLease, limits: Limits, key: WindowKey,
      after: Ledger)
    requires Sound(expired, now) && Balanced(TouchedLedger(expired, KeysOf(asks), now)) && id !in expired.leases
    requires lease.accounting.Consumable? && lease.windows == ReservationsOf(expired.windows, asks, now)
    requires after == Admitted(expired, KeysOf(asks), id, lease, now) && InOrder(after, limits)
    requires key in KeysOf(asks)
    ensures key in limits.windows
    ensures var window := Touched(expired.windows, key, now);
            window.committed + window.reserved + Demand(asks, key, lease.reservedAmount) <= limits.windows[key]
  {
    var touched := TouchedLedger(expired, KeysOf(asks), now);
    var window := Touched(expired.windows, key, now);
    assert WindowBalanced(touched, key) && WindowBalanced(after, key);
    ChargeIsDemand(expired.windows, asks, lease.reservedAmount, now, key);
    TotalInsert(expired.leases, id, lease, Held(key, window.generation));
  }

  lemma AdmissionNeedsRoom(
      expired: Ledger, trigger: Trigger, amount: nat, expiresAt: nat, id: LeaseId, now: nat, limits: Limits)
    requires Sound(expired, now) && Books(expired, limits) && id !in expired.leases
    requires ReservesWindows(trigger) && Inside(trigger, limits)
    requires InOrder(ReserveWindows(expired, trigger, amount, expiresAt, id, now).0, limits)
    ensures AdmitsOnlyWithRoom(expired.windows, trigger, amount, now, limits)
  {
    var asks := Asks(trigger.dimension, trigger.amounts);
    if Refusal(expired.windows, asks, amount, now) == |asks| > 0 {
      var lease := WindowLease(trigger, amount, expiresAt, ReservationsOf(expired.windows, asks, now));
      OpenAdmits(expired, trigger, amount, expiresAt, id, now);
      TouchingAsksKeepsBooks(expired, trigger, asks, now, limits);
      forall key | key in KeysOf(asks)
        ensures key in limits.windows
        ensures var window := Touched(expired.windows, key, now);
                window.committed + window.reserved + Demand(asks, key, amount) <= limits.windows[key]
      {
        AdmissionFillsWindow(expired, asks, now, id, lease, limits, key,
          Admitted(expired, KeysOf(asks), id, lease, now));
      }
    }
  }

  lemma TouchingAsksKeepsBooks(ledger: Ledger, trigger: Trigger, asks: seq<Ask>, now: nat, limits: Limits)
    requires Sound(ledger, now) && Books(ledger, limits) && ReservesWindows(trigger) && Inside(trigger, limits)
    requires asks == Asks(trigger.dimension, trigger.amounts)
    ensures Books(TouchedLedger(ledger, KeysOf(asks), now), limits)
  {
    forall key | key in KeysOf(asks)
      ensures key in limits.windows && limits.windows[key] <= U32_MAX
    {
      var i :| 0 <= i < |asks| && asks[i].key == key;
      assert asks[i] in asks;
    }
    TouchKeepsBooks(ledger, KeysOf(asks), now, limits);
  }

  lemma OccupationNeedsRoom(
      expired: Ledger, trigger: Trigger, amount: nat, expiresAt: nat, id: LeaseId, limits: Limits)
    requires Books(expired, limits) && id !in expired.leases && amount > 0
    requires trigger.resource.Concurrency? && InOrder(ReserveSlots(expired, trigger, amount, expiresAt, id).0, limits)
    ensures OccupiesOnlyWithRoom(expired.concurrency, trigger, amount, limits)
  {
    var (after, outcome) := ReserveSlots(expired, trigger, amount, expiresAt, id);
    if outcome.Reserved? {
      TotalInsert(expired.leases, id, SlotLease(trigger, amount, expiresAt), Occupying(trigger.slot));
      assert Occupied(expired.concurrency, trigger.slot) == Total(expired.leases, Occupying(trigger.slot));
      assert Occupied(after.concurrency, trigger.slot) == Total(after.leases, Occupying(trigger.slot));
    }
  }

  lemma ReservationNeedsRoom(
      ledger: Ledger, clock: nat, trigger: Trigger, amount: nat, deadline: Option<nat>, id: LeaseId, now: nat,
      limits: Limits)
    requires Sound(ledger, clock) && clock <= now && Admissible(ledger, amount, deadline, id, now)
    requires Books(ledger, limits) && Inside(trigger, limits)
    requires InOrder(Reserve(ledger, trigger, amount, deadline, id, now).0, limits)
    ensures HasRoom(ledger, trigger, amount, deadline, now, limits)
  {
    var expired := Expire(ledger, now);
    ExpireKeepsSound(ledger, clock, now);
    ExpireKeepsBooks(ledger, clock, now, limits);
    if deadline.Some? && ReservesWindows(trigger) {
      AdmissionNeedsRoom(expired, trigger, amount, deadline.value, id, now, limits);
    } else if deadline.Some? && trigger.resource.Concurrency? {
      OccupationNeedsRoom(expired, trigger, amount, deadline.value, id, limits);
    }
  }

  /** A step without room, if it is admitted, leaves the books out of order. */
  lemma InOrderNeedsRoom(ledger: Ledger, clock: nat, step: Step, limits: Limits)
    requires Sound(ledger, clock) && Possible(ledger, clock, step) && Expressible(limits) && InOrder(ledger, limits)
    requires step.event.Reserving? ==> Inside(step.event.trigger, limits)
    requires InOrder(After(ledger, step), limits)
    ensures StepHasRoom(ledger, step, limits)
  {
    match step.event
    case Reserving(trigger, amount, deadline, id) =>
      ReservationNeedsRoom(ledger, clock, trigger, amount, deadline, id, step.now, limits);
    case Updating(id, consumedTotal, sequence) =>
    case Finishing(id, consumedTotal, sequence) =>
  }

  lemma {:induction false} PrefixIsPossible(start: Ledger, clock: nat, steps: seq<Step>, i: nat)
    requires PossibleRun(start, clock, steps) && i <= |steps|
    ensures PossibleRun(start, clock, steps[..i])
    ensures i < |steps| ==> Possible(Run(start, steps[..i]), Clock(clock, steps[..i]), steps[i])
    decreases |steps|
  {
    if i < |steps| {
      var before := steps[..|steps| - 1];
      if i < |before| {
        PrefixIsPossible(start, clock, before, i);
      }
      assert before[..i] == steps[..i];
    } else {
      assert steps[..i] == steps;
    }
  }

  lemma NextInRun(start: Ledger, steps: seq<Step>, i: nat)
    requires i < |steps|
    ensures Run(start, steps[..i + 1]) == After(Run(start, steps[..i]), steps[i])
  {
    assert steps[..i + 1][..i] == steps[..i];
  }

  lemma {:induction false} RoomStaysInOrder(
      start: Ledger, clock: nat, steps: seq<Step>, limits: Limits, n: nat)
    requires Sound(start, clock) && PossibleRun(start, clock, steps) && Expressible(limits)
    requires InOrder(start, limits) && AllInside(steps, limits) && AlwaysRoom(start, steps, limits) && n <= |steps|
    ensures InOrder(Run(start, steps[..n]), limits)
  {
    if n > 0 {
      RoomStaysInOrder(start, clock, steps, limits, n - 1);
      PrefixIsPossible(start, clock, steps, n - 1);
      RunKeepsSound(start, clock, steps[..n - 1]);
      NextInRun(start, steps, n - 1);
      RoomyStepStaysInOrder(Run(start, steps[..n - 1]), Clock(clock, steps[..n - 1]), steps[n - 1], limits);
    }
  }

  /** Under any rules, with repeated window lengths and the largest limits included, a run balances and stays
      inside the limits all along exactly when every reservation it admits has room: in each window for the
      amount once per ask that names it, and in its slot for the amount. */
  lemma InOrderIffRoom(start: Ledger, clock: nat, steps: seq<Step>, limits: Limits)
    requires Sound(start, clock) && PossibleRun(start, clock, steps) && Expressible(limits)
    requires InOrder(start, limits) && AllInside(steps, limits)
    ensures StaysInOrder(start, steps, limits) <==> AlwaysRoom(start, steps, limits)
  {
    if AlwaysRoom(start, steps, limits) {
      forall n | 0 <= n <= |steps|
        ensures InOrder(Run(start, steps[..n]), limits)
      {
        RoomStaysInOrder(start, clock, steps, limits, n);
      }
    }
    if StaysInOrder(start, steps, limits) {
      forall i | 0 <= i < |steps|
        ensures StepHasRoom(Run(start, steps[..i]), steps[i], limits)
      {
        PrefixIsPossible(start, clock, steps, i);
        RunKeepsSound(start, clock, steps[..i]);
        NextInRun(start, steps, i);
        assert InOrder(Run(start, steps[..i + 1]), limits);
        InOrderNeedsRoom(Run(start, steps[..i]), Clock(clock, steps[..i]), steps[i], limits);
      }
    }
  }
}
