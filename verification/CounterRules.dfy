/** What the operations of the local quota counter decide and leave, in terms of limits, window ages, totals and
    sequence numbers alone. `QuotaLedger` says how the states are computed; this says what they mean. */
module CounterRules {
  import opened QuotaTypes
  import opened QuotaLedger
  import opened LedgerSums
  import opened LedgerLaws
  import opened ReserveLaws
  import opened LedgerRuns

  // ---------- what has expired ----------

  /** Every operation first forgets the leases whose time is up, which are settled with the totals they last
      reported, and the records that have lapsed; all others stay as they are. */
  lemma ExpiryIff(before: Ledger, now: nat, id: LeaseId)
    ensures var after := Expire(before, now);
      && (id in after.leases <==> id in before.leases && now < before.leases[id].expiresAt)
      && (id in after.leases ==> after.leases[id] == before.leases[id])
      && (id in before.leases && before.leases[id].expiresAt <= now ==>
            id in after.retired && after.retired[id] == before.leases[id])
      && (id in after.completed <==> id in before.completed && now < before.completed[id].expiresAt)
      && (id in after.completed ==> after.completed[id] == before.completed[id])
  {
  }

  // ---------- windows ----------

  /** The window that an amount of a trigger limits: one second long unless a longer one is configured. */
  function WindowOf(trigger: Trigger, limit: Amount): WindowKey {
    WindowKey(trigger.dimension, if limit.seconds.Some? && limit.seconds.value > 1 then limit.seconds.value else 1)
  }

  /** The window exists and is younger than its length. */
  predicate Running(windows: map<WindowKey, QuotaWindow>, key: WindowKey, now: nat) {
    key in windows && now < windows[key].startedAt + key.seconds * SECOND
  }

  /** A running window takes the amount on top of what it has; any other starts over and takes it alone. */
  predicate TakesMore(windows: map<WindowKey, QuotaWindow>, key: WindowKey, limit: nat, amount: nat, now: nat) {
    if Running(windows, key, now)
    then SatAdd(SatAdd(windows[key].committed, windows[key].reserved), amount) <= limit
    else amount <= limit
  }

  /** The `i`th amount of the trigger is a limit at all. */
  predicate IsLimit(trigger: Trigger, i: int) {
    0 <= i < |trigger.amounts| && trigger.amounts[i].maxAmount > 0
  }

  /** The window of the `i`th amount takes the reservation. */
  predicate LimitTakes(windows: map<WindowKey, QuotaWindow>, trigger: Trigger, i: int, amount: nat, now: nat)
    requires IsLimit(trigger, i)
  {
    TakesMore(windows, WindowOf(trigger, trigger.amounts[i]), trigger.amounts[i].maxAmount, amount, now)
  }

  ghost predicate HasLimit(trigger: Trigger) {
    exists i :: IsLimit(trigger, i)
  }

  // ---------- limits and asks ----------

  /** How many limits come before the `i`th amount. */
  function Rank(trigger: Trigger, i: nat): nat
    requires i <= |trigger.amounts|
  {
    |Asks(trigger.dimension, trigger.amounts[..i])|
  }

  function AskOf(trigger: Trigger, i: nat): Ask
    requires i < |trigger.amounts|
  {
    Ask(WindowOf(trigger, trigger.amounts[i]), trigger.amounts[i].maxAmount)
  }

  function TriggerAsks(trigger: Trigger): seq<Ask> {
    Asks(trigger.dimension, trigger.amounts)
  }

  lemma {:induction false} AskAtRank(trigger: Trigger, i: nat)
    requires IsLimit(trigger, i)
    ensures Rank(trigger, i) < |TriggerAsks(trigger)| && TriggerAsks(trigger)[Rank(trigger, i)] == AskOf(trigger, i)
    decreases |trigger.amounts|
  {
    var n := |trigger.amounts| - 1;
    var init := trigger.(amounts := trigger.amounts[..n]);
    if i < n {
      AskAtRank(init, i);
      assert init.amounts[..i] == trigger.amounts[..i];
    } else {
      assert trigger.amounts[..i] == init.amounts;
    }
  }

  lemma RankGrows(trigger: Trigger, i: nat, j: nat)
    requires IsLimit(trigger, i) && i < j <= |trigger.amounts|
    ensures Rank(trigger, i) < Rank(trigger, j)
  {
    var init := trigger.(amounts := trigger.amounts[..j]);
    AskAtRank(init, i);
    assert init.amounts[..i] == trigger.amounts[..i];
  }

  lemma {:induction false} RankedLimit(trigger: Trigger, k: nat) returns (i: nat)
    requires k < |TriggerAsks(trigger)|
    ensures IsLimit(trigger, i) && Rank(trigger, i) == k
    decreases |trigger.amounts|
  {
    var n := |trigger.amounts| - 1;
    var init := trigger.(amounts := trigger.amounts[..n]);
    if k < |TriggerAsks(init)| {
      i := RankedLimit(init, k);
      assert init.amounts[..i] == trigger.amounts[..i];
    } else {
      i := n;
    }
  }

  /** Some limit of the trigger is for this window. */
  ghost predicate LimitsWindow(trigger: Trigger, key: WindowKey) {
    exists i :: IsLimit(trigger, i) && WindowOf(trigger, trigger.amounts[i]) == key
  }

  lemma AskedIff(trigger: Trigger, key: WindowKey)
    ensures key in KeysOf(TriggerAsks(trigger)) <==> LimitsWindow(trigger, key)
  {
    var asks := TriggerAsks(trigger);
    if key in KeysOf(asks) {
      var k :| 0 <= k < |asks| && asks[k].key == key;
      var i := RankedLimit(trigger, k);
      AskAtRank(trigger, i);
    }
    if i :| IsLimit(trigger, i) && WindowOf(trigger, trigger.amounts[i]) == key {
      AskAtRank(trigger, i);
    }
  }

  lemma FitsIff(windows: map<WindowKey, QuotaWindow>, trigger: Trigger, i: nat, amount: nat, now: nat)
    requires IsLimit(trigger, i) && amount <= U32_MAX
    ensures Fits(windows, AskOf(trigger, i), amount, now) <==> LimitTakes(windows, trigger, i, amount, now)
  {
  }

  lemma AdmittedIff(windows: map<WindowKey, QuotaWindow>, trigger: Trigger, amount: nat, now: nat)
    requires amount <= U32_MAX
    ensures var asks := TriggerAsks(trigger);
            Refusal(windows, asks, amount, now) == |asks| <==>
              forall i :: IsLimit(trigger, i) ==> LimitTakes(windows, trigger, i, amount, now)
    ensures TriggerAsks(trigger) != [] <==> HasLimit(trigger)
  {
    var asks := TriggerAsks(trigger);
    var stop := Refusal(windows, asks, amount, now);
    if asks != [] {
      var i := RankedLimit(trigger, 0);
    }
    if i :| IsLimit(trigger, i) {
      AskAtRank(trigger, i);
    }
    if stop < |asks| {
      var i := RankedLimit(trigger, stop);
      AskAtRank(trigger, i);
      FitsIff(windows, trigger, i, amount, now);
    } else {
      forall i | IsLimit(trigger, i)
        ensures LimitTakes(windows, trigger, i, amount, now)
      {
        AskAtRank(trigger, i);
        FitsIff(windows, trigger, i, amount, now);
      }
    }
  }

  // ---------- what a reservation is answered ----------

  /** Windows: without a limit the trigger is not configured; otherwise the reservation is granted exactly when the
      window of every limit takes it. A window too old counts for nothing, whatever was spent in it. */
  lemma WindowsGrantIff(
      before: Ledger, trigger: Trigger, amount: nat, deadline: nat, id: LeaseId, now: nat)
    requires ReservesWindows(trigger) && amount <= U32_MAX
    ensures
      var windows := Expire(before, now).windows;
      Reserve(before, trigger, amount, Some(deadline), id, now).1 ==
        if !HasLimit(trigger) then NotConfigured
        else if forall i :: IsLimit(trigger, i) ==> LimitTakes(windows, trigger, i, amount, now) then Reserved
        else Rejected
  {
    AdmittedIff(Expire(before, now).windows, trigger, amount, now);
  }

  /** Everything else a reservation can be answered. */
  lemma OtherAnswers(
      before: Ledger, trigger: Trigger, amount: nat, deadline: Option<nat>, id: LeaseId, now: nat)
    ensures
      var (after, outcome) := Reserve(before, trigger, amount, deadline, id, now);
      var slots := Expire(before, now).concurrency;
      && (deadline.None? <==> outcome == Unrepresentable)
      && (deadline.Some? && trigger.resource.Other? ==> outcome == NotConfigured)
      && (deadline.Some? && trigger.resource.Concurrency? ==>
            outcome ==
              if trigger.concurrencyMax.None? || trigger.concurrencyMax.value == 0 then NotConfigured
              else if SatAdd(if trigger.slot in slots then slots[trigger.slot] else 0, amount)
                      <= trigger.concurrencyMax.value
              then Reserved else Rejected)
      && (outcome == NotConfigured || outcome == Unrepresentable ==> after == Expire(before, now))
  {
  }

  /** A quota comes back: once every window of the trigger had its time since the last operation, a reservation
      within the limits is granted, whatever was spent before. */
  lemma QuotaComesBack(
      before: Ledger, clock: nat, trigger: Trigger, amount: nat, deadline: nat, id: LeaseId, now: nat)
    requires Sound(before, clock) && ReservesWindows(trigger) && amount <= U32_MAX && HasLimit(trigger)
    requires forall i :: IsLimit(trigger, i) ==>
      && amount <= trigger.amounts[i].maxAmount
      && clock + WindowOf(trigger, trigger.amounts[i]).seconds * SECOND <= now
    ensures Reserve(before, trigger, amount, Some(deadline), id, now).1 == Reserved
  {
    WindowsGrantIff(before, trigger, amount, deadline, id, now);
    var at :| IsLimit(trigger, at);
    forall i | IsLimit(trigger, i)
      ensures LimitTakes(Expire(before, now).windows, trigger, i, amount, now)
    {
      var key := WindowOf(trigger, trigger.amounts[i]);
      if key in before.windows {
        assert before.windows[key].startedAt <= clock;
      }
    }
  }

  // ---------- what a reservation leaves ----------

  /** The window is looked at: a limit names it and every limit before that one takes the reservation. */
  ghost predicate LooksAt(
      windows: map<WindowKey, QuotaWindow>, trigger: Trigger, amount: nat, now: nat, key: WindowKey) {
    exists i ::
      && IsLimit(trigger, i) && WindowOf(trigger, trigger.amounts[i]) == key
      && forall j :: IsLimit(trigger, j) && j < i ==> LimitTakes(windows, trigger, j, amount, now)
  }

  /** The amount once for every limit among the first `n` amounts that names the window. */
  function Owed(trigger: Trigger, n: nat, key: WindowKey, amount: nat): nat
    requires n <= |trigger.amounts|
  {
    if n == 0 then 0
    else
      Owed(trigger, n - 1, key, amount)
      + if IsLimit(trigger, n - 1) && WindowOf(trigger, trigger.amounts[n - 1]) == key then amount else 0
  }

  function LookedAt(windows: map<WindowKey, QuotaWindow>, trigger: Trigger, amount: nat, now: nat): set<WindowKey> {
    var asks := TriggerAsks(trigger);
    var stop := Refusal(windows, asks, amount, now);
    KeysOf(if stop < |asks| then asks[..stop + 1] else asks)
  }

  lemma LookedAtFits(windows: map<WindowKey, QuotaWindow>, trigger: Trigger, amount: nat, now: nat, i: nat, j: nat)
    requires IsLimit(trigger, i) && IsLimit(trigger, j) && j < i && amount <= U32_MAX
    requires Rank(trigger, i) <= Refusal(windows, TriggerAsks(trigger), amount, now)
    ensures LimitTakes(windows, trigger, j, amount, now)
  {
    RankGrows(trigger, j, i);
    AskAtRank(trigger, j);
    FitsIff(windows, trigger, j, amount, now);
  }

  lemma LookedAtLooks(windows: map<WindowKey, QuotaWindow>, trigger: Trigger, amount: nat, now: nat, key: WindowKey)
    requires amount <= U32_MAX && key in LookedAt(windows, trigger, amount, now)
    ensures LooksAt(windows, trigger, amount, now, key)
  {
    var asks := TriggerAsks(trigger);
    var stop := Refusal(windows, asks, amount, now);
    var seen := if stop < |asks| then asks[..stop + 1] else asks;
    var k :| 0 <= k < |seen| && seen[k].key == key;
    var i := RankedLimit(trigger, k);
    AskAtRank(trigger, i);
    forall j | IsLimit(trigger, j) && j < i
      ensures LimitTakes(windows, trigger, j, amount, now)
    {
      LookedAtFits(windows, trigger, amount, now, i, j);
    }
  }

  /** A limit is looked at before the first one that refuses, or is that one. */
  lemma BeforeRefusal(windows: map<WindowKey, QuotaWindow>, trigger: Trigger, amount: nat, now: nat, i: nat)
    requires amount <= U32_MAX && IsLimit(trigger, i)
    requires forall j :: IsLimit(trigger, j) && j < i ==> LimitTakes(windows, trigger, j, amount, now)
    ensures Rank(trigger, i) <= Refusal(windows, TriggerAsks(trigger), amount, now)
  {
    var stop := Refusal(windows, TriggerAsks(trigger), amount, now);
    AskAtRank(trigger, i);
    if stop < Rank(trigger, i) {
      var p := RankedLimit(trigger, stop);
      AskAtRank(trigger, p);
      FitsIff(windows, trigger, p, amount, now);
      if p > i {
        RankGrows(trigger, i, p);
      }
      assert false;
    }
  }

  lemma LooksAtIff(windows: map<WindowKey, QuotaWindow>, trigger: Trigger, amount: nat, now: nat, key: WindowKey)
    requires amount <= U32_MAX
    ensures key in LookedAt(windows, trigger, amount, now) <==> LooksAt(windows, trigger, amount, now, key)
  {
    if key in LookedAt(windows, trigger, amount, now) {
      LookedAtLooks(windows, trigger, amount, now, key);
    }
    if LooksAt(windows, trigger, amount, now, key) {
      var i :|
        && IsLimit(trigger, i) && WindowOf(trigger, trigger.amounts[i]) == key
        && forall j :: IsLimit(trigger, j) && j < i ==> LimitTakes(windows, trigger, j, amount, now);
      BeforeRefusal(windows, trigger, amount, now, i);
      AskAtRank(trigger, i);
      var asks := TriggerAsks(trigger);
      var stop := Refusal(windows, asks, amount, now);
      assert (if stop < |asks| then asks[..stop + 1] else asks)[Rank(trigger, i)].key == key;
    }
  }

  lemma {:induction false} DemandIsOwed(trigger: Trigger, n: nat, key: WindowKey, amount: nat)
    requires n <= |trigger.amounts|
    ensures Demand(Asks(trigger.dimension, trigger.amounts[..n]), key, amount) == Owed(trigger, n, key, amount)
  {
    if n > 0 {
      DemandIsOwed(trigger, n - 1, key, amount);
      assert trigger.amounts[..n][..n - 1] == trigger.amounts[..n - 1];
      var before := Asks(trigger.dimension, trigger.amounts[..n - 1]);
      if IsLimit(trigger, n - 1) {
        assert (before + [AskOf(trigger, n - 1)])[..|before|] == before;
      }
    }
  }

  /** The counters fit the fields that hold them. */
  predicate InWidth(windows: map<WindowKey, QuotaWindow>) {
    forall key :: key in windows ==> windows[key].reserved <= U32_MAX
  }

  /** A window that starts at `now` with nothing committed and only `reserved` in it, one generation on. */
  predicate StartsOver(
      windows: map<WindowKey, QuotaWindow>, key: WindowKey, now: nat, reserved: nat, after: QuotaWindow) {
    && after.startedAt == now && after.committed == 0 && after.reserved == reserved
    && after.generation == if key in windows then windows[key].generation + 1 else 0
  }

  /** What is known of one window when a reservation has been answered. */
  ghost predicate WindowAfter(
      windows: map<WindowKey, QuotaWindow>, after: map<WindowKey, QuotaWindow>, looked: bool, now: nat, key: WindowKey,
      charge: nat) {
    && (key in after <==> key in windows || looked)
    && (key in after && !looked ==> after[key] == windows[key])
    && (looked && Running(windows, key, now) ==>
          after[key] == windows[key].(reserved := (windows[key].reserved + charge) % (U32_MAX + 1)))
    && (looked && !Running(windows, key, now) ==>
          StartsOver(windows, key, now, charge % (U32_MAX + 1), after[key]))
  }

  lemma ExpiryKeepsWidth(before: Ledger, now: nat)
    requires InWidth(before.windows)
    ensures InWidth(Expire(before, now).windows)
  {
  }

  lemma TouchedLooksSo(windows: map<WindowKey, QuotaWindow>, keys: set<WindowKey>, now: nat, key: WindowKey)
    requires InWidth(windows) && key.seconds >= 1
    ensures WindowAfter(windows, TouchAll(windows, keys, now), key in keys, now, key, 0)
  {
  }

  /** A refused reservation has charged nothing: windows too old among those looked at have started over, all
      others, and all leases and slots, are as expiry left them. */
  lemma RefusedReservationLeaves(
      before: Ledger, trigger: Trigger, amount: nat, deadline: nat, id: LeaseId, now: nat, key: WindowKey)
    requires ReservesWindows(trigger) && amount <= U32_MAX && InWidth(before.windows) && key.seconds >= 1
    requires Reserve(before, trigger, amount, Some(deadline), id, now).1 == Rejected
    ensures
      var ledger, after := Expire(before, now), Reserve(before, trigger, amount, Some(deadline), id, now).0;
      && after == ledger.(windows := after.windows)
      && WindowAfter(ledger.windows, after.windows, LooksAt(ledger.windows, trigger, amount, now, key), now, key, 0)
  {
    var ledger := Expire(before, now);
    ExpiryKeepsWidth(before, now);
    OpenRejects(ledger, trigger, amount, deadline, id, now);
    LooksAtIff(ledger.windows, trigger, amount, now, key);
    TouchedLooksSo(ledger.windows, LookedAt(ledger.windows, trigger, amount, now), now, key);
  }

  /** What an admitted lease is. */
  ghost predicate OpenedIn(
      windows: map<WindowKey, QuotaWindow>, trigger: Trigger, amount: nat, deadline: nat, lease: LocalLease) {
    && lease == LocalLease(Consumable, amount, if trigger.resource.Qps? then 1 else 0, 0, deadline, lease.windows, None)
    && (forall r :: r in lease.windows ==> r.key in windows && r.generation == windows[r.key].generation)
    && forall key: WindowKey, weight: nat :: key in windows ==>
         Charge(lease.windows, key, windows[key].generation, weight)
         == Owed(trigger, |trigger.amounts|, key, weight)
  }

  /** One window after an admission. */
  lemma AdmittedWindow(
      windows: map<WindowKey, QuotaWindow>, trigger: Trigger, amount: nat, now: nat, key: WindowKey,
      after: map<WindowKey, QuotaWindow>)
    requires InWidth(windows) && key.seconds >= 1
    requires var asks := TriggerAsks(trigger);
      after == Charged(TouchAll(windows, KeysOf(asks), now), ReservationsOf(windows, asks, now), amount)
    ensures WindowAfter(windows, after, key in KeysOf(TriggerAsks(trigger)), now, key,
              Owed(trigger, |trigger.amounts|, key, amount))
  {
    var asks := TriggerAsks(trigger);
    assert trigger.amounts[..|trigger.amounts|] == trigger.amounts;
    DemandIsOwed(trigger, |trigger.amounts|, key, amount);
    if key in KeysOf(asks) {
      ChargeIsDemand(windows, asks, amount, now, key);
    } else if key in windows {
      ChargeUnasked(windows, asks, amount, now, key, windows[key].generation);
    }
  }

  lemma ReservedAsOwed(
      windows: map<WindowKey, QuotaWindow>, trigger: Trigger, amount: nat, now: nat, key: WindowKey,
      after: map<WindowKey, QuotaWindow>, weight: nat)
    requires var asks := TriggerAsks(trigger);
      after == Charged(TouchAll(windows, KeysOf(asks), now), ReservationsOf(windows, asks, now), amount)
    requires key in after
    ensures Charge(ReservationsOf(windows, TriggerAsks(trigger), now), key, after[key].generation, weight)
         == Owed(trigger, |trigger.amounts|, key, weight)
  {
    var asks := TriggerAsks(trigger);
    assert trigger.amounts[..|trigger.amounts|] == trigger.amounts;
    DemandIsOwed(trigger, |trigger.amounts|, key, weight);
    if key in KeysOf(asks) {
      ChargeIsDemand(windows, asks, weight, now, key);
    } else {
      ChargeUnasked(windows, asks, weight, now, key, windows[key].generation);
      assert forall i :: 0 <= i < |asks| ==> asks[i].key in KeysOf(asks);
      NoDemand(asks, key, weight);
    }
  }

  lemma GrantIsAdmission(
      before: Ledger, trigger: Trigger, amount: nat, deadline: nat, id: LeaseId, now: nat, lease: LocalLease)
    requires ReservesWindows(trigger) && amount <= U32_MAX
    requires Reserve(before, trigger, amount, Some(deadline), id, now).1 == Reserved
    requires lease == WindowLease(trigger, amount, deadline,
      ReservationsOf(Expire(before, now).windows, TriggerAsks(trigger), now))
    ensures Reserve(before, trigger, amount, Some(deadline), id, now).0
         == Admitted(Expire(before, now), KeysOf(TriggerAsks(trigger)), id, lease, now)
  {
    OpenAdmits(Expire(before, now), trigger, amount, deadline, id, now);
  }

  lemma AdmissionFrame(
      ledger: Ledger, trigger: Trigger, amount: nat, deadline: nat, id: LeaseId, now: nat, lease: LocalLease,
      after: Ledger)
    requires lease == WindowLease(trigger, amount, deadline,
      ReservationsOf(ledger.windows, TriggerAsks(trigger), now))
    requires after == Admitted(ledger, KeysOf(TriggerAsks(trigger)), id, lease, now)
    ensures after == ledger.(windows := after.windows, leases := ledger.leases[id := lease])
    ensures after.windows == Charged(TouchAll(ledger.windows, KeysOf(TriggerAsks(trigger)), now),
              ReservationsOf(ledger.windows, TriggerAsks(trigger), now), amount)
  {
  }

  /** A granted reservation charges a window of the trigger the amount once per limit that names it: one too old
      starts over with that alone, a running one keeps its start, generation and committed count, and no other
      window changes. Slots, records and all other leases are as expiry left them. */
  lemma GrantedReservationLeaves(
      before: Ledger, trigger: Trigger, amount: nat, deadline: nat, id: LeaseId, now: nat, key: WindowKey)
    requires ReservesWindows(trigger) && amount <= U32_MAX && InWidth(before.windows) && key.seconds >= 1
    requires Reserve(before, trigger, amount, Some(deadline), id, now).1 == Reserved
    ensures
      var ledger, after := Expire(before, now), Reserve(before, trigger, amount, Some(deadline), id, now).0;
      && id in after.leases
      && after == ledger.(windows := after.windows, leases := ledger.leases[id := after.leases[id]])
      && WindowAfter(ledger.windows, after.windows, LimitsWindow(trigger, key), now, key,
           Owed(trigger, |trigger.amounts|, key, amount))
  {
    var ledger, after := Expire(before, now), Reserve(before, trigger, amount, Some(deadline), id, now).0;
    var lease := WindowLease(trigger, amount, deadline,
      ReservationsOf(ledger.windows, TriggerAsks(trigger), now));
    ExpiryKeepsWidth(before, now);
    GrantIsAdmission(before, trigger, amount, deadline, id, now, lease);
    AdmissionFrame(ledger, trigger, amount, deadline, id, now, lease, after);
    AskedIff(trigger, key);
    AdmittedWindow(ledger.windows, trigger, amount, now, key, after.windows);
  }

  lemma HoldsAsOwed(
      windows: map<WindowKey, QuotaWindow>, trigger: Trigger, amount: nat, deadline: nat, now: nat, lease: LocalLease,
      after: map<WindowKey, QuotaWindow>)
    requires lease == WindowLease(trigger, amount, deadline, ReservationsOf(windows, TriggerAsks(trigger), now))
    requires after == Charged(TouchAll(windows, KeysOf(TriggerAsks(trigger)), now),
      ReservationsOf(windows, TriggerAsks(trigger), now), amount)
    ensures OpenedIn(after, trigger, amount, deadline, lease)
  {
    var asks := TriggerAsks(trigger);
    forall r | r in lease.windows
      ensures r.key in after && r.generation == after[r.key].generation
    {
      var i :| 0 <= i < |lease.windows| && lease.windows[i] == r;
      assert asks[i].key in KeysOf(asks);
    }
    forall key: WindowKey, weight: nat | key in after
      ensures Charge(lease.windows, key, after[key].generation, weight)
           == Owed(trigger, |trigger.amounts|, key, weight)
    {
      ReservedAsOwed(windows, trigger, amount, now, key, after, weight);
    }
  }

  /** The lease a granted reservation opens: nothing reported, a request counted from the start, and in every
      window, in its present generation, as many reservations as limits that name it. */
  lemma GrantedLeaseHolds(
      before: Ledger, trigger: Trigger, amount: nat, deadline: nat, id: LeaseId, now: nat)
    requires ReservesWindows(trigger) && amount <= U32_MAX
    requires Reserve(before, trigger, amount, Some(deadline), id, now).1 == Reserved
    ensures
      var after := Reserve(before, trigger, amount, Some(deadline), id, now).0;
      id in after.leases && OpenedIn(after.windows, trigger, amount, deadline, after.leases[id])
  {
    var ledger, after := Expire(before, now), Reserve(before, trigger, amount, Some(deadline), id, now).0;
    var lease := WindowLease(trigger, amount, deadline,
      ReservationsOf(ledger.windows, TriggerAsks(trigger), now));
    GrantIsAdmission(before, trigger, amount, deadline, id, now, lease);
    AdmissionFrame(ledger, trigger, amount, deadline, id, now, lease, after);
    HoldsAsOwed(ledger.windows, trigger, amount, deadline, now, lease, after.windows);
  }

  /** Slots: a granted reservation occupies the amount and opens a lease that holds it; a refused one leaves the
      slot as it was, with an entry of its own. */
  lemma SlotReservationLeaves(
      before: Ledger, trigger: Trigger, amount: nat, deadline: nat, id: LeaseId, now: nat)
    requires trigger.resource.Concurrency?
    ensures
      var ledger := Expire(before, now);
      var (after, outcome) := Reserve(before, trigger, amount, Some(deadline), id, now);
      var occupied := if trigger.slot in ledger.concurrency then ledger.concurrency[trigger.slot] else 0;
      && (outcome == Rejected ==> after == ledger.(concurrency := ledger.concurrency[trigger.slot := occupied]))
      && (outcome == Reserved ==>
            after == ledger.(
              concurrency := ledger.concurrency[trigger.slot := (occupied + amount) % (U32_MAX + 1)],
              leases := ledger.leases[id := LocalLease(Occupancy, amount, 0, 0, deadline, [], Some(trigger.slot))]))
  {
  }

  // ---------- reporting and settling ----------

  /** The number a lease takes next; the largest one is taken again and again. */
  function NumberAfter(sequence: nat): nat {
    if sequence < U64_MAX then sequence + 1 else U64_MAX
  }

  /** A report is taken exactly when the lease lives and the report repeats its last one, or has the next number
      and a total between the last one and the reservation. What is refused changes nothing but for expiry. */
  lemma UpdateIff(before: Ledger, id: LeaseId, consumedTotal: nat, sequence: nat, now: nat)
    ensures
      var ledger := Expire(before, now);
      var (after, r) := Update(before, id, consumedTotal, sequence, now);
      && (r.Ok? <==>
            && id in ledger.leases
            && var lease := ledger.leases[id];
               || (sequence == lease.sequence && consumedTotal == lease.consumedTotal)
               || (sequence == NumberAfter(lease.sequence)
                   && lease.consumedTotal <= consumedTotal <= lease.reservedAmount))
      && (r.Err? ==> after == ledger)
      && (r == Err(ApiInvalidArgument) <==>
            && r.Err? && id in ledger.leases && sequence == NumberAfter(ledger.leases[id].sequence))
      && (r.Err? ==> r.error == ApiInvalidArgument || r.error == InvalidState)
      && (r.Ok? ==>
            && id in after.leases && after == ledger.(leases := ledger.leases[id := after.leases[id]])
            && after.leases[id] == ledger.leases[id].(consumedTotal := consumedTotal, sequence := sequence))
  {
    var ledger := Expire(before, now);
    if id in ledger.leases {
      var lease := ledger.leases[id];
      if sequence == lease.sequence && consumedTotal == lease.consumedTotal {
        assert lease.(consumedTotal := consumedTotal, sequence := sequence) == lease;
        assert ledger.leases[id := lease] == ledger.leases;
      }
    }
  }

  /** A settlement is taken exactly when its record is still kept, or the lease lives and the settlement has the
      next number and a total between the last one and the reservation. */
  lemma FinishIff(before: Ledger, id: LeaseId, consumedTotal: nat, sequence: nat, now: nat)
    ensures
      var ledger := Expire(before, now);
      var (after, r) := Finish(before, id, consumedTotal, sequence, now);
      var recorded := id in ledger.completed && ledger.completed[id].consumedTotal == consumedTotal
                      && ledger.completed[id].sequence == sequence;
      && (r.Ok? <==>
            || recorded
            || (id in ledger.leases
                && sequence == NumberAfter(ledger.leases[id].sequence)
                && ledger.leases[id].consumedTotal <= consumedTotal <= ledger.leases[id].reservedAmount))
      && (recorded || r.Err? ==> after == ledger)
      && (r == Err(ApiInvalidArgument) <==>
            && r.Err? && id in ledger.leases && sequence == NumberAfter(ledger.leases[id].sequence))
      && (r.Err? ==> r.error == ApiInvalidArgument || r.error == InvalidState)
  {
  }

  lemma SeparateCharge(lease: LocalLease, key: WindowKey, generation: nat, amount: nat)
    requires Separate(lease)
    ensures Charge(lease.windows, key, generation, amount)
         == if Reservation(key, generation) in lease.windows then amount else 0
  {
    if Reservation(key, generation) in lease.windows {
      var at :| 0 <= at < |lease.windows| && lease.windows[at] == Reservation(key, generation);
      ChargeOnce(lease.windows, at, amount);
    } else {
      ChargeAbsent(lease.windows, key, generation, amount);
    }
  }

  lemma SettlingIsRetiring(before: Ledger, id: LeaseId, consumedTotal: nat, sequence: nat, now: nat, lease: LocalLease)
    requires id in Expire(before, now).leases && id !in Expire(before, now).completed
    requires Finish(before, id, consumedTotal, sequence, now).1.Ok?
    requires lease == Expire(before, now).leases[id].(consumedTotal := consumedTotal)
    ensures
      var ledger, after := Expire(before, now), Finish(before, id, consumedTotal, sequence, now).0;
      && after.windows == SettledWindows(ledger.windows, map[id := lease])
      && after.concurrency == SettledConcurrency(ledger.concurrency, map[id := lease])
  {
  }

  /** What settling a lease does to a window: for each reservation the lease has in its present generation the
      reserved amount is given back and the final total committed. A lease that reserved in no window twice does
      so once, and without a reservation in that generation the window stays as it is. */
  lemma SettlementLeaves(before: Ledger, id: LeaseId, consumedTotal: nat, sequence: nat, now: nat, key: WindowKey)
    requires var ledger := Expire(before, now);
      && id in ledger.leases && ledger.leases[id].accounting.Consumable?
      && key in ledger.windows && ledger.windows[key].committed <= U32_MAX
    requires Finish(before, id, consumedTotal, sequence, now).1.Ok? && id !in Expire(before, now).completed
    ensures
      var ledger, after := Expire(before, now), Finish(before, id, consumedTotal, sequence, now).0;
      var lease, window := ledger.leases[id], ledger.windows[key];
      && after.windows.Keys == ledger.windows.Keys
      && after.windows[key] == window.(
           reserved := SatSub(window.reserved, Charge(lease.windows, key, window.generation, lease.reservedAmount)),
           committed := SatAdd(window.committed, Charge(lease.windows, key, window.generation, consumedTotal)))
      && (Separate(lease) ==>
            after.windows[key] ==
              if Reservation(key, window.generation) in lease.windows
              then window.(reserved := SatSub(window.reserved, lease.reservedAmount),
                           committed := SatAdd(window.committed, consumedTotal))
              else window)
  {
    var ledger := Expire(before, now);
    var lease, generation := ledger.leases[id].(consumedTotal := consumedTotal), ledger.windows[key].generation;
    SettlingIsRetiring(before, id, consumedTotal, sequence, now, lease);
    TotalSingle(id, lease, Held(key, generation));
    TotalSingle(id, lease, Spent(key, generation));
    if Separate(ledger.leases[id]) {
      SeparateCharge(ledger.leases[id], key, generation, lease.reservedAmount);
      SeparateCharge(ledger.leases[id], key, generation, consumedTotal);
    }
  }

  /** What settling one lease does to slots: the occupied amount is released, and a slot left empty forgotten. */
  lemma ReleaseLeaves(before: Ledger, id: LeaseId, consumedTotal: nat, sequence: nat, now: nat, slot: string)
    requires var ledger := Expire(before, now);
      id in ledger.leases && ledger.leases[id].accounting.Occupancy? && ledger.leases[id].reservedAmount > 0
    requires Finish(before, id, consumedTotal, sequence, now).1.Ok? && id !in Expire(before, now).completed
    ensures
      var ledger, after := Expire(before, now), Finish(before, id, consumedTotal, sequence, now).0;
      var amount := ledger.leases[id].reservedAmount;
      if ledger.leases[id].concurrencyKey == Some(slot) then
        && (slot in after.concurrency <==> slot in ledger.concurrency && ledger.concurrency[slot] > amount)
        && (slot in after.concurrency ==> after.concurrency[slot] == ledger.concurrency[slot] - amount)
      else
        && (slot in after.concurrency <==> slot in ledger.concurrency)
        && (slot in after.concurrency ==> after.concurrency[slot] == ledger.concurrency[slot])
  {
    var lease := Expire(before, now).leases[id].(consumedTotal := consumedTotal);
    SettlingIsRetiring(before, id, consumedTotal, sequence, now, lease);
    TotalSingle(id, lease, Occupying(slot));
  }

  /** What settling leaves of the lease itself: it is settled with its final total, and a record that answers a
      repeat is kept for a minute. */
  lemma SettledLeaseIsRecorded(before: Ledger, id: LeaseId, consumedTotal: nat, sequence: nat, now: nat)
    requires id in Expire(before, now).leases && id !in Expire(before, now).completed
    requires Finish(before, id, consumedTotal, sequence, now).1.Ok?
    ensures
      var ledger, after := Expire(before, now), Finish(before, id, consumedTotal, sequence, now).0;
      && after.leases == ledger.leases - {id}
      && after.retired == ledger.retired[id := ledger.leases[id].(consumedTotal := consumedTotal)]
      && after.completed == ledger.completed[id := CompletedLease(consumedTotal, sequence, now + 60 * SECOND)]
  {
    FinishFrame(before, id, consumedTotal, sequence, now);
  }
}
