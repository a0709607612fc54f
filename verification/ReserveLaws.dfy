/** Reserving keeps the books, provided the rule names each window once and its limits are
    below the largest 32-bit number. */
module ReserveLaws {
  import opened QuotaTypes
  import opened QuotaLedger
  import opened LedgerSums
  import opened LedgerLaws

  // ---------- what callers and rules guarantee ----------

  /** What `QuotaRequest::check_valid` and the lease id generator guarantee. */
  ghost predicate Admissible(ledger: Ledger, amount: nat, deadline: Option<nat>, id: LeaseId, now: nat) {
    && 0 < amount <= U32_MAX
    && (deadline.Some? ==> now < deadline.value <= now + MAX_TTL)
    && id !in ledger.leases && id !in ledger.retired
  }

  /** No two windows of one trigger have the same length. */
  predicate DistinctKeys(asks: seq<Ask>) {
    forall i, j :: 0 <= i < j < |asks| ==> asks[i].key != asks[j].key
  }

  predicate ReservesWindows(trigger: Trigger) {
    trigger.resource.Qps? || trigger.resource.Token?
  }

  /** A lease that reserved in no window twice. */
  predicate Separate(lease: LocalLease) {
    forall i, j :: 0 <= i < j < |lease.windows| ==> lease.windows[i] != lease.windows[j]
  }

  /** A rule that names no window length twice. */
  predicate SafeTrigger(trigger: Trigger) {
    ReservesWindows(trigger) ==> DistinctKeys(Asks(trigger.dimension, trigger.amounts))
  }

  /** The trigger allows no more than the limits do. */
  predicate Inside(trigger: Trigger, limits: Limits) {
    && (ReservesWindows(trigger) ==>
          forall ask :: ask in Asks(trigger.dimension, trigger.amounts) ==>
            ask.key in limits.windows && ask.maxAmount <= limits.windows[ask.key] <= U32_MAX)
    && (trigger.resource.Concurrency? && trigger.concurrencyMax.Some? ==>
          trigger.slot in limits.slots && trigger.concurrencyMax.value <= limits.slots[trigger.slot] <= U32_MAX)
  }

  /** The same, with limits below the largest number. */
  ghost predicate WithinLimits(trigger: Trigger, limits: Limits) {
    && (ReservesWindows(trigger) ==>
          forall ask :: ask in Asks(trigger.dimension, trigger.amounts) ==>
            ask.key in limits.windows && ask.maxAmount <= limits.windows[ask.key] < U32_MAX)
    && (trigger.resource.Concurrency? && trigger.concurrencyMax.Some? ==>
          trigger.slot in limits.slots && trigger.concurrencyMax.value <= limits.slots[trigger.slot] < U32_MAX)
  }

  lemma {:induction false} AsksAreWhole(dimension: string, amounts: seq<Amount>)
    ensures forall ask :: ask in Asks(dimension, amounts) ==> ask.key.seconds >= 1 && ask.maxAmount >= 1
    ensures forall ask :: ask in Asks(dimension, amounts) ==> ask.key.dimension == dimension
  {
    if amounts != [] {
      AsksAreWhole(dimension, amounts[..|amounts| - 1]);
    }
  }

  // ---------- touching windows ----------

  lemma TouchKeepsReservation(
      windows: map<WindowKey, QuotaWindow>, keys: set<WindowKey>, r: Reservation, expiresAt: nat, now: nat)
    requires SoundReservation(windows, r, expiresAt)
    requires r.key.seconds >= 1 && windows[r.key].startedAt <= now < expiresAt <= now + MAX_TTL
    ensures SoundReservation(TouchAll(windows, keys, now), r, expiresAt)
  {
    var found := TouchAll(windows, keys, now)[r.key];
    if found != windows[r.key] {
      assert found.generation == windows[r.key].generation + 1;
      assert now - windows[r.key].startedAt >= SECOND;
    }
  }

  lemma TouchKeepsLease(ledger: Ledger, keys: set<WindowKey>, id: LeaseId, now: nat)
    requires Sound(ledger, now) && id in ledger.leases && ledger.leases[id].expiresAt > now
    ensures SoundLease(TouchAll(ledger.windows, keys, now), ledger.leases[id], now)
  {
    var lease := ledger.leases[id];
    assert SoundLease(ledger.windows, lease, now);
    forall r | r in lease.windows
      ensures SoundReservation(TouchAll(ledger.windows, keys, now), r, lease.expiresAt)
    {
      assert SoundReservation(ledger.windows, r, lease.expiresAt);
      TouchKeepsReservation(ledger.windows, keys, r, lease.expiresAt, now);
    }
  }

  ghost function TouchedLedger(ledger: Ledger, keys: set<WindowKey>, now: nat): Ledger {
    ledger.(windows := TouchAll(ledger.windows, keys, now))
  }

  lemma TouchKeepsSound(ledger: Ledger, keys: set<WindowKey>, now: nat)
    requires Sound(ledger, now)
    requires forall id :: id in ledger.leases ==> ledger.leases[id].expiresAt > now
    requires forall key :: key in keys ==> key.seconds >= 1
    ensures Sound(TouchedLedger(ledger, keys, now), now)
  {
    var after := TouchedLedger(ledger, keys, now);
    forall id | id in after.leases
      ensures SoundLease(after.windows, after.leases[id], now)
    {
      TouchKeepsLease(ledger, keys, id, now);
    }
    forall id | id in after.retired
      ensures SoundRetired(after.windows, after.retired[id])
    {
      assert SoundRetired(ledger.windows, ledger.retired[id]);
    }
  }

  /** Nothing was ever reserved or spent in a generation that has not begun. */
  lemma NothingInTheFuture(ledger: Ledger, key: WindowKey, generation: nat, clock: nat)
    requires Sound(ledger, clock)
    requires key in ledger.windows ==> ledger.windows[key].generation < generation
    ensures Total(ledger.leases, Held(key, generation)) == 0
    ensures Total(ledger.retired, Spent(key, generation)) == 0
  {
    forall id | id in ledger.leases
      ensures Weight(Held(key, generation), ledger.leases[id]) == 0
    {
      var lease := ledger.leases[id];
      assert SoundLease(ledger.windows, lease, clock);
      assert forall r :: r in lease.windows ==> SoundReservation(ledger.windows, r, lease.expiresAt);
      ChargeAbsent(lease.windows, key, generation, lease.reservedAmount);
    }
    TotalZero(ledger.leases, Held(key, generation));
    forall id | id in ledger.retired
      ensures Weight(Spent(key, generation), ledger.retired[id]) == 0
    {
      var lease := ledger.retired[id];
      assert SoundRetired(ledger.windows, lease);
      ChargeAbsent(lease.windows, key, generation, lease.consumedTotal);
    }
    TotalZero(ledger.retired, Spent(key, generation));
  }

  lemma TouchKeepsBooks(ledger: Ledger, keys: set<WindowKey>, now: nat, limits: Limits)
    requires Sound(ledger, now) && Books(ledger, limits)
    requires forall key :: key in keys ==> key in limits.windows && limits.windows[key] <= U32_MAX
    ensures Books(TouchedLedger(ledger, keys, now), limits)
  {
    var after := TouchedLedger(ledger, keys, now);
    forall key | key in after.windows
      ensures WindowBalanced(after, key)
    {
      if key in ledger.windows && after.windows[key] == ledger.windows[key] {
        assert WindowBalanced(ledger, key);
      } else {
        NothingInTheFuture(ledger, key, after.windows[key].generation, now);
      }
    }
    forall slot
      ensures Occupied(after.concurrency, slot) == Total(after.leases, Occupying(slot))
    {
      assert Occupied(ledger.concurrency, slot) == Total(ledger.leases, Occupying(slot));
    }
  }

  // ---------- opening a lease ----------

  /** What an admitted reservation adds to a window: the amount once for every ask that names it. */
  function Demand(asks: seq<Ask>, key: WindowKey, amount: nat): nat {
    if asks == [] then 0
    else Demand(asks[..|asks| - 1], key, amount) + if asks[|asks| - 1].key == key then amount else 0
  }

  lemma {:induction false} ChargeIsDemand(
      windows: map<WindowKey, QuotaWindow>, asks: seq<Ask>, amount: nat, now: nat, key: WindowKey)
    ensures Charge(ReservationsOf(windows, asks, now), key, Touched(windows, key, now).generation, amount)
         == Demand(asks, key, amount)
  {
    if asks != [] {
      var init, rs := asks[..|asks| - 1], ReservationsOf(windows, asks, now);
      assert rs[..|rs| - 1] == ReservationsOf(windows, init, now);
      ChargeIsDemand(windows, init, amount, now, key);
    }
  }

  lemma {:induction false} NoDemand(asks: seq<Ask>, key: WindowKey, amount: nat)
    requires forall i :: 0 <= i < |asks| ==> asks[i].key != key
    ensures Demand(asks, key, amount) == 0
  {
    if asks != [] {
      NoDemand(asks[..|asks| - 1], key, amount);
    }
  }

  lemma {:induction false} DemandOnce(asks: seq<Ask>, key: WindowKey, amount: nat)
    requires DistinctKeys(asks)
    ensures Demand(asks, key, amount) <= amount
  {
    if asks != [] {
      var init, last := asks[..|asks| - 1], asks[|asks| - 1];
      if last.key == key {
        forall i | 0 <= i < |init|
          ensures init[i].key != key
        {
          assert asks[i].key != asks[|asks| - 1].key;
        }
        NoDemand(init, key, amount);
      } else {
        DemandOnce(init, key, amount);
      }
    }
  }

  /** Every asked window has room for all that the reservation adds to it. */
  predicate Roomy(windows: map<WindowKey, QuotaWindow>, asks: seq<Ask>, amount: nat, now: nat, limits: Limits) {
    forall key :: key in KeysOf(asks) ==>
      && key in limits.windows
      && var window := Touched(windows, key, now);
         window.committed + window.reserved + Demand(asks, key, amount) <= limits.windows[key]
  }

  lemma ChargeUnasked(
      windows: map<WindowKey, QuotaWindow>, asks: seq<Ask>, amount: nat, now: nat, key: WindowKey, generation: nat)
    requires key !in KeysOf(asks)
    ensures Charge(ReservationsOf(windows, asks, now), key, generation, amount) == 0
  {
    var rs := ReservationsOf(windows, asks, now);
    assert forall i :: 0 <= i < |rs| ==> rs[i].key == asks[i].key;
    assert forall i :: 0 <= i < |asks| ==> asks[i].key in KeysOf(asks);
    ChargeAbsent(rs, key, generation, amount);
  }

  lemma WrapAddExact(a: nat, b: nat)
    requires a + b <= U32_MAX
    ensures WrapAdd(a, b) == a + b
  {
  }

  /** An admitted window has room for the amount. */
  lemma AdmittedFits(
      windows: map<WindowKey, QuotaWindow>, asks: seq<Ask>, amount: nat, now: nat, key: WindowKey, limit: nat)
    requires Refusal(windows, asks, amount, now) == |asks|
    requires key in KeysOf(asks) && forall ask :: ask in asks && ask.key == key ==> ask.maxAmount <= limit
    requires limit < U32_MAX
    ensures Touched(windows, key, now).committed + Touched(windows, key, now).reserved + amount <= limit
  {
    var at :| 0 <= at < |asks| && asks[at].key == key;
    assert Fits(windows, asks[at], amount, now);
    assert asks[at] in asks;
  }

  /** Rules that repeat no window length admit no more than there is room for. */
  lemma DistinctIsRoomy(
      windows: map<WindowKey, QuotaWindow>, asks: seq<Ask>, amount: nat, now: nat, limits: Limits)
    requires DistinctKeys(asks) && Refusal(windows, asks, amount, now) == |asks|
    requires forall ask :: ask in asks ==>
      ask.key in limits.windows && ask.maxAmount <= limits.windows[ask.key] < U32_MAX
    ensures Roomy(windows, asks, amount, now, limits)
  {
    forall key | key in KeysOf(asks)
      ensures key in limits.windows
      ensures var window := Touched(windows, key, now);
              window.committed + window.reserved + Demand(asks, key, amount) <= limits.windows[key]
    {
      var at :| 0 <= at < |asks| && asks[at].key == key;
      assert asks[at] in asks;
      AdmittedFits(windows, asks, amount, now, key, limits.windows[key]);
      DemandOnce(asks, key, amount);
    }
  }

  /** Where there is room, every window gets the amount added once per ask that names it, without wrapping
      around. */
  lemma ChargedExactly(
      windows: map<WindowKey, QuotaWindow>, asks: seq<Ask>, amount: nat, now: nat, key: WindowKey, limit: nat)
    requires key in TouchAll(windows, KeysOf(asks), now)
    requires var window := TouchAll(windows, KeysOf(asks), now)[key];
             window.committed + window.reserved + Demand(asks, key, amount) <= limit <= U32_MAX
    ensures var window := TouchAll(windows, KeysOf(asks), now)[key];
            var charge := Charge(ReservationsOf(windows, asks, now), key, window.generation, amount);
            && charge == Demand(asks, key, amount)
            && WrapAdd(window.reserved, charge) == window.reserved + charge
            && window.committed + window.reserved + charge <= limit
  {
    var window := TouchAll(windows, KeysOf(asks), now)[key];
    if key in KeysOf(asks) {
      ChargeIsDemand(windows, asks, amount, now, key);
    } else {
      ChargeUnasked(windows, asks, amount, now, key, window.generation);
      assert forall i :: 0 <= i < |asks| ==> asks[i].key in KeysOf(asks);
      NoDemand(asks, key, amount);
    }
    WrapAddExact(window.reserved, Demand(asks, key, amount));
  }

  /** A window with the weight of one more lease. */
  function Loaded(window: QuotaWindow, key: WindowKey, lease: LocalLease): QuotaWindow {
    window.(reserved := window.reserved + Weight(Held(key, window.generation), lease))
  }

  /** Adding a lease and exactly its weight to every counter keeps the balance. */
  lemma AddKeepsBalance(ledger: Ledger, after: Ledger, id: LeaseId, lease: LocalLease)
    requires Balanced(ledger) && id !in ledger.leases
    requires after.leases == ledger.leases[id := lease] && after.retired == ledger.retired
    requires after.windows.Keys == ledger.windows.Keys
    requires forall key :: key in ledger.windows ==> after.windows[key] == Loaded(ledger.windows[key], key, lease)
    requires forall slot :: Occupied(after.concurrency, slot)
                            == Occupied(ledger.concurrency, slot) + Weight(Occupying(slot), lease)
    ensures Balanced(after)
  {
    forall key | key in after.windows
      ensures WindowBalanced(after, key)
    {
      assert WindowBalanced(ledger, key);
      TotalInsert(ledger.leases, id, lease, Held(key, ledger.windows[key].generation));
    }
    forall slot
      ensures Occupied(after.concurrency, slot) == Total(after.leases, Occupying(slot))
    {
      assert Occupied(ledger.concurrency, slot) == Total(ledger.leases, Occupying(slot));
      TotalInsert(ledger.leases, id, lease, Occupying(slot));
    }
  }

  lemma AdmitKeepsWindow(
      ledger: Ledger, asks: seq<Ask>, now: nat, id: LeaseId, lease: LocalLease, key: WindowKey, limit: nat)
    requires lease.accounting.Consumable? && lease.windows == ReservationsOf(ledger.windows, asks, now)
    requires key in TouchAll(ledger.windows, KeysOf(asks), now)
    requires var window := TouchAll(ledger.windows, KeysOf(asks), now)[key];
             window.committed + window.reserved + Demand(asks, key, lease.reservedAmount) <= limit <= U32_MAX
    ensures var window := TouchAll(ledger.windows, KeysOf(asks), now)[key];
            var after := Admitted(ledger, KeysOf(asks), id, lease, now).windows;
            && key in after
            && after[key] == Loaded(window, key, lease)
            && after[key].committed + after[key].reserved <= limit
  {
    ChargedExactly(ledger.windows, asks, lease.reservedAmount, now, key, limit);
  }

  /** A window has room whether or not it is asked for. */
  lemma RoomAt(ledger: Ledger, asks: seq<Ask>, amount: nat, now: nat, limits: Limits, touched: Ledger, key: WindowKey)
    requires touched == TouchedLedger(ledger, KeysOf(asks), now) && Capped(touched, limits)
    requires Roomy(ledger.windows, asks, amount, now, limits) && key in touched.windows
    ensures key in limits.windows && limits.windows[key] <= U32_MAX
    ensures touched.windows[key].committed + touched.windows[key].reserved + Demand(asks, key, amount)
         <= limits.windows[key]
  {
    if key !in KeysOf(asks) {
      assert forall i :: 0 <= i < |asks| ==> asks[i].key in KeysOf(asks);
      NoDemand(asks, key, amount);
    }
  }

  lemma AdmitLoads(
      ledger: Ledger, asks: seq<Ask>, now: nat, id: LeaseId, lease: LocalLease, limits: Limits, touched: Ledger,
      after: Ledger)
    requires touched == TouchedLedger(ledger, KeysOf(asks), now) && Capped(touched, limits)
    requires after == Admitted(ledger, KeysOf(asks), id, lease, now)
    requires Roomy(ledger.windows, asks, lease.reservedAmount, now, limits)
    requires lease.accounting.Consumable? && lease.windows == ReservationsOf(ledger.windows, asks, now)
    ensures forall key :: key in touched.windows ==>
      key in after.windows && after.windows[key] == Loaded(touched.windows[key], key, lease)
    ensures Capped(after, limits)
  {
    forall key | key in touched.windows
      ensures key in after.windows && after.windows[key] == Loaded(touched.windows[key], key, lease)
      ensures after.windows[key].committed + after.windows[key].reserved <= limits.windows[key]
    {
      RoomAt(ledger, asks, lease.reservedAmount, now, limits, touched, key);
      AdmitKeepsWindow(ledger, asks, now, id, lease, key, limits.windows[key]);
    }
  }

  lemma AdmitFrame(
      ledger: Ledger, keys: set<WindowKey>, now: nat, id: LeaseId, lease: LocalLease, touched: Ledger, after: Ledger)
    requires touched == TouchedLedger(ledger, keys, now) && after == Admitted(ledger, keys, id, lease, now)
    ensures after.leases == touched.leases[id := lease] && after.retired == touched.retired
    ensures after.concurrency == touched.concurrency && after.windows.Keys == touched.windows.Keys
    ensures touched.leases == ledger.leases
  {
  }

  /** A new lease in windows, with its weight on their counters, keeps the books. */
  lemma LoadKeepsBooks(touched: Ledger, after: Ledger, id: LeaseId, lease: LocalLease, limits: Limits)
    requires Books(touched, limits) && Capped(after, limits) && lease.accounting.Consumable? && id !in touched.leases
    requires after.leases == touched.leases[id := lease] && after.retired == touched.retired
    requires after.concurrency == touched.concurrency && after.windows.Keys == touched.windows.Keys
    requires forall key :: key in touched.windows ==> after.windows[key] == Loaded(touched.windows[key], key, lease)
    ensures Books(after, limits)
  {
    AddKeepsBalance(touched, after, id, lease);
  }

  lemma AdmitKeepsBooks(
      ledger: Ledger, asks: seq<Ask>, now: nat, id: LeaseId, lease: LocalLease, limits: Limits, touched: Ledger,
      after: Ledger)
    requires touched == TouchedLedger(ledger, KeysOf(asks), now) && Books(touched, limits)
    requires after == Admitted(ledger, KeysOf(asks), id, lease, now)
    requires Roomy(ledger.windows, asks, lease.reservedAmount, now, limits) && id !in ledger.leases
    requires lease.accounting.Consumable? && lease.windows == ReservationsOf(ledger.windows, asks, now)
    ensures Books(after, limits)
  {
    AdmitLoads(ledger, asks, now, id, lease, limits, touched, after);
    AdmitFrame(ledger, KeysOf(asks), now, id, lease, touched, after);
    LoadKeepsBooks(touched, after, id, lease, limits);
  }

  ghost function Opened(ledger: Ledger, trigger: Trigger, amount: nat, expiresAt: nat, id: LeaseId, now: nat): Ledger {
    ReserveWindows(ledger, trigger, amount, expiresAt, id, now).0
  }

  lemma RejectionKeepsBooks(
      ledger: Ledger, trigger: Trigger, asks: seq<Ask>, stop: nat, now: nat, limits: Limits, after: Ledger)
    requires Sound(ledger, now) && Books(ledger, limits) && ReservesWindows(trigger) && Inside(trigger, limits)
    requires asks == Asks(trigger.dimension, trigger.amounts) && stop < |asks|
    requires after == TouchedLedger(ledger, KeysOf(asks[..stop + 1]), now)
    ensures Books(after, limits)
  {
    forall key | key in KeysOf(asks[..stop + 1])
      ensures key in limits.windows && limits.windows[key] <= U32_MAX
    {
      var i :| 0 <= i < stop + 1 && asks[..stop + 1][i].key == key;
      assert asks[i] in asks;
    }
    TouchKeepsBooks(ledger, KeysOf(asks[..stop + 1]), now, limits);
  }

  lemma AdmissionKeepsBooks(
      ledger: Ledger, trigger: Trigger, asks: seq<Ask>, lease: LocalLease, id: LeaseId, now: nat, limits: Limits,
      after: Ledger)
    requires Sound(ledger, now) && Books(ledger, limits) && ReservesWindows(trigger) && Inside(trigger, limits)
    requires asks == Asks(trigger.dimension, trigger.amounts) && id !in ledger.leases
    requires Roomy(ledger.windows, asks, lease.reservedAmount, now, limits)
    requires lease.accounting.Consumable? && lease.windows == ReservationsOf(ledger.windows, asks, now)
    requires after == Admitted(ledger, KeysOf(asks), id, lease, now)
    ensures Books(after, limits)
  {
    forall key | key in KeysOf(asks)
      ensures key in limits.windows && limits.windows[key] <= U32_MAX
    {
      var i :| 0 <= i < |asks| && asks[i].key == key;
      assert asks[i] in asks;
    }
    TouchKeepsBooks(ledger, KeysOf(asks), now, limits);
    AdmitKeepsBooks(ledger, asks, now, id, lease, limits, TouchedLedger(ledger, KeysOf(asks), now), after);
  }

  /** If the windows admit the reservation, they have room for all that it adds to them. */
  predicate AdmitsOnlyWithRoom(
      windows: map<WindowKey, QuotaWindow>, trigger: Trigger, amount: nat, now: nat, limits: Limits) {
    var asks := Asks(trigger.dimension, trigger.amounts);
    Refusal(windows, asks, amount, now) == |asks| ==> Roomy(windows, asks, amount, now, limits)
  }

  lemma OpenKeepsBooks(
      ledger: Ledger, trigger: Trigger, amount: nat, expiresAt: nat, id: LeaseId, now: nat, limits: Limits)
    requires Sound(ledger, now) && Books(ledger, limits) && id !in ledger.leases
    requires ReservesWindows(trigger) && Inside(trigger, limits)
    requires AdmitsOnlyWithRoom(ledger.windows, trigger, amount, now, limits)
    ensures Books(Opened(ledger, trigger, amount, expiresAt, id, now), limits)
  {
    var asks := Asks(trigger.dimension, trigger.amounts);
    var stop := Refusal(ledger.windows, asks, amount, now);
    var after := Opened(ledger, trigger, amount, expiresAt, id, now);
    if stop < |asks| {
      OpenRejects(ledger, trigger, amount, expiresAt, id, now);
      RejectionKeepsBooks(ledger, trigger, asks, stop, now, limits, after);
    } else if asks != [] {
      OpenAdmits(ledger, trigger, amount, expiresAt, id, now);
      AdmissionKeepsBooks(ledger, trigger, asks,
        WindowLease(trigger, amount, expiresAt, ReservationsOf(ledger.windows, asks, now)), id, now, limits, after);
    }
  }

  lemma AdmitKeepsSound(ledger: Ledger, asks: seq<Ask>, amount: nat, now: nat, id: LeaseId, lease: LocalLease)
    requires Sound(TouchedLedger(ledger, KeysOf(asks), now), now)
    requires Admissible(ledger, amount, Some(lease.expiresAt), id, now)
    requires lease.accounting.Consumable? && lease.reservedAmount == amount && lease.consumedTotal <= amount
    requires lease.windows == ReservationsOf(ledger.windows, asks, now)
    ensures Sound(Admitted(ledger, KeysOf(asks), id, lease, now), now)
  {
    var touched := TouchedLedger(ledger, KeysOf(asks), now);
    forall r | r in lease.windows
      ensures r.key in touched.windows && r.generation == touched.windows[r.key].generation
    {
      var i :| 0 <= i < |asks| && r == lease.windows[i];
      assert asks[i].key in KeysOf(asks);
    }
    ChargeKeepsSound(touched, lease.windows, amount, now);
    AddKeepsSound(touched.(windows := Charged(touched.windows, lease.windows, amount)), id, lease, now);
  }

  /** What reserving in windows leaves when some window has no room. */
  lemma OpenRejects(ledger: Ledger, trigger: Trigger, amount: nat, expiresAt: nat, id: LeaseId, now: nat)
    requires var asks := Asks(trigger.dimension, trigger.amounts); Refusal(ledger.windows, asks, amount, now) < |asks|
    ensures
      var asks := Asks(trigger.dimension, trigger.amounts);
      var stop := Refusal(ledger.windows, asks, amount, now);
      ReserveWindows(ledger, trigger, amount, expiresAt, id, now)
      == (TouchedLedger(ledger, KeysOf(asks[..stop + 1]), now), Rejected)
  {
  }

  lemma OpenAdmits(ledger: Ledger, trigger: Trigger, amount: nat, expiresAt: nat, id: LeaseId, now: nat)
    requires var asks := Asks(trigger.dimension, trigger.amounts);
             asks != [] && Refusal(ledger.windows, asks, amount, now) == |asks|
    ensures
      var asks := Asks(trigger.dimension, trigger.amounts);
      var lease := WindowLease(trigger, amount, expiresAt, ReservationsOf(ledger.windows, asks, now));
      ReserveWindows(ledger, trigger, amount, expiresAt, id, now)
      == (Admitted(ledger, KeysOf(asks), id, lease, now), Reserved)
  {
  }

  lemma TouchingAsksKeepsSound(ledger: Ledger, asks: seq<Ask>, now: nat)
    requires Sound(ledger, now)
    requires forall id :: id in ledger.leases ==> ledger.leases[id].expiresAt > now
    requires forall ask :: ask in asks ==> ask.key.seconds >= 1
    ensures Sound(TouchedLedger(ledger, KeysOf(asks), now), now)
  {
    forall key | key in KeysOf(asks)
      ensures key.seconds >= 1
    {
      var i :| 0 <= i < |asks| && asks[i].key == key;
      assert asks[i] in asks;
    }
    TouchKeepsSound(ledger, KeysOf(asks), now);
  }

  lemma AdmittingKeepsSound(
      ledger: Ledger, trigger: Trigger, asks: seq<Ask>, amount: nat, expiresAt: nat, id: LeaseId, now: nat)
    requires Sound(ledger, now) && Admissible(ledger, amount, Some(expiresAt), id, now)
    requires forall other :: other in ledger.leases ==> ledger.leases[other].expiresAt > now
    requires forall ask :: ask in asks ==> ask.key.seconds >= 1
    ensures
      var lease := WindowLease(trigger, amount, expiresAt, ReservationsOf(ledger.windows, asks, now));
      Sound(Admitted(ledger, KeysOf(asks), id, lease, now), now)
  {
    TouchingAsksKeepsSound(ledger, asks, now);
    AdmitKeepsSound(ledger, asks, amount, now, id,
      WindowLease(trigger, amount, expiresAt, ReservationsOf(ledger.windows, asks, now)));
  }

  lemma OpenKeepsSound(ledger: Ledger, trigger: Trigger, amount: nat, expiresAt: nat, id: LeaseId, now: nat)
    requires Sound(ledger, now) && Admissible(ledger, amount, Some(expiresAt), id, now)
    requires forall other :: other in ledger.leases ==> ledger.leases[other].expiresAt > now
    ensures Sound(Opened(ledger, trigger, amount, expiresAt, id, now), now)
  {
    var asks := Asks(trigger.dimension, trigger.amounts);
    AsksAreWhole(trigger.dimension, trigger.amounts);
    var stop := Refusal(ledger.windows, asks, amount, now);
    if stop < |asks| {
      OpenRejects(ledger, trigger, amount, expiresAt, id, now);
      assert forall ask :: ask in asks[..stop + 1] ==> ask in asks;
      TouchingAsksKeepsSound(ledger, asks[..stop + 1], now);
    } else if asks != [] {
      OpenAdmits(ledger, trigger, amount, expiresAt, id, now);
      AdmittingKeepsSound(ledger, trigger, asks, amount, expiresAt, id, now);
    }
  }

  lemma ChargeKeepsSound(ledger: Ledger, rs: seq<Reservation>, amount: nat, now: nat)
    requires Sound(ledger, now)
    ensures Sound(ledger.(windows := Charged(ledger.windows, rs, amount)), now)
  {
    var windows := Charged(ledger.windows, rs, amount);
    forall id | id in ledger.leases
      ensures SoundLease(windows, ledger.leases[id], now)
    {
      var lease := ledger.leases[id];
      assert SoundLease(ledger.windows, lease, now);
      assert forall r :: r in lease.windows ==> SoundReservation(ledger.windows, r, lease.expiresAt);
    }
    forall id | id in ledger.retired
      ensures SoundRetired(windows, ledger.retired[id])
    {
      assert SoundRetired(ledger.windows, ledger.retired[id]);
    }
  }

  lemma AddKeepsSound(ledger: Ledger, id: LeaseId, lease: LocalLease, now: nat)
    requires Sound(ledger, now) && id !in ledger.leases && id !in ledger.retired
    requires 0 < lease.reservedAmount <= U32_MAX && lease.consumedTotal <= lease.reservedAmount
    requires now < lease.expiresAt <= now + MAX_TTL
    requires lease.accounting.Occupancy? ==> lease.windows == [] && lease.concurrencyKey.Some?
    requires forall r :: r in lease.windows ==>
        r.key in ledger.windows && r.generation == ledger.windows[r.key].generation
    ensures Sound(ledger.(leases := ledger.leases[id := lease]), now)
  {
    forall r | r in lease.windows
      ensures SoundReservation(ledger.windows, r, lease.expiresAt)
    {
      assert ledger.windows[r.key].startedAt <= now;
    }
  }

  /** If the slot admits the reservation, there is room for it. */
  predicate OccupiesOnlyWithRoom(concurrency: map<string, nat>, trigger: Trigger, amount: nat, limits: Limits) {
    trigger.concurrencyMax.Some? && trigger.concurrencyMax.value > 0
    && SatAdd(Occupied(concurrency, trigger.slot), amount) <= trigger.concurrencyMax.value ==>
      && trigger.slot in limits.slots
      && Occupied(concurrency, trigger.slot) + amount <= limits.slots[trigger.slot]
  }

  lemma OccupyKeepsBooks(
      ledger: Ledger, trigger: Trigger, amount: nat, expiresAt: nat, id: LeaseId, limits: Limits)
    requires Books(ledger, limits) && id !in ledger.leases
    requires trigger.resource.Concurrency? && Inside(trigger, limits)
    requires OccupiesOnlyWithRoom(ledger.concurrency, trigger, amount, limits)
    ensures Books(ReserveSlots(ledger, trigger, amount, expiresAt, id).0, limits)
  {
    var (after, outcome) := ReserveSlots(ledger, trigger, amount, expiresAt, id);
    if outcome.Reserved? {
      WrapAddExact(Occupied(ledger.concurrency, trigger.slot), amount);
      AddKeepsBalance(ledger, after, id, SlotLease(trigger, amount, expiresAt));
    } else {
      assert forall slot :: Occupied(after.concurrency, slot) == Occupied(ledger.concurrency, slot);
      assert forall key :: key in after.windows ==> WindowBalanced(ledger, key) && WindowBalanced(after, key);
    }
  }

  lemma SoundIgnoresConcurrency(ledger: Ledger, concurrency: map<string, nat>, clock: nat)
    requires Sound(ledger, clock)
    ensures Sound(ledger.(concurrency := concurrency), clock)
  {
  }

  lemma OccupyKeepsSound(ledger: Ledger, trigger: Trigger, amount: nat, expiresAt: nat, id: LeaseId, now: nat)
    requires Sound(ledger, now) && Admissible(ledger, amount, Some(expiresAt), id, now)
    ensures Sound(ReserveSlots(ledger, trigger, amount, expiresAt, id).0, now)
  {
    var (after, outcome) := ReserveSlots(ledger, trigger, amount, expiresAt, id);
    SoundIgnoresConcurrency(ledger, after.concurrency, now);
    if outcome.Reserved? {
      AddKeepsSound(ledger.(concurrency := after.concurrency), id, SlotLease(trigger, amount, expiresAt), now);
    }
  }

  lemma ReserveKeepsSound(
      before: Ledger, trigger: Trigger, amount: nat, deadline: Option<nat>, id: LeaseId, clock: nat, now: nat)
    requires Sound(before, clock) && clock <= now && Admissible(before, amount, deadline, id, now)
    ensures Sound(Reserve(before, trigger, amount, deadline, id, now).0, now)
  {
    var ledger := Expire(before, now);
    ExpireKeepsSound(before, clock, now);
    if deadline.Some? {
      if ReservesWindows(trigger) {
        OpenKeepsSound(ledger, trigger, amount, deadline.value, id, now);
      } else if trigger.resource.Concurrency? {
        OccupyKeepsSound(ledger, trigger, amount, deadline.value, id, now);
      }
    }
  }

  /** A reservation is admitted only where there is room for all that it adds. */
  ghost predicate HasRoom(
      before: Ledger, trigger: Trigger, amount: nat, deadline: Option<nat>, now: nat, limits: Limits) {
    deadline.Some? ==>
      && (ReservesWindows(trigger) ==>
            AdmitsOnlyWithRoom(Expire(before, now).windows, trigger, amount, now, limits))
      && (trigger.resource.Concurrency? ==>
            OccupiesOnlyWithRoom(Expire(before, now).concurrency, trigger, amount, limits))
  }

  /** Under any rules, reserving where there is room keeps the books. */
  lemma RoomKeepsBooks(
      before: Ledger, trigger: Trigger, amount: nat, deadline: Option<nat>, id: LeaseId, clock: nat, now: nat,
      limits: Limits)
    requires Sound(before, clock) && clock <= now && Admissible(before, amount, deadline, id, now)
    requires Books(before, limits) && Inside(trigger, limits)
    requires HasRoom(before, trigger, amount, deadline, now, limits)
    ensures Books(Reserve(before, trigger, amount, deadline, id, now).0, limits)
  {
    var ledger := Expire(before, now);
    ExpireKeepsSound(before, clock, now);
    ExpireKeepsBooks(before, clock, now, limits);
    if deadline.Some? {
      if ReservesWindows(trigger) {
        OpenKeepsBooks(ledger, trigger, amount, deadline.value, id, now, limits);
      } else if trigger.resource.Concurrency? {
        OccupyKeepsBooks(ledger, trigger, amount, deadline.value, id, limits);
      }
    }
  }

  /** Below the largest number a rule that repeats no window length admits nothing without room. */
  lemma SafeHasRoom(
      before: Ledger, trigger: Trigger, amount: nat, deadline: Option<nat>, now: nat, limits: Limits)
    requires SafeTrigger(trigger) && WithinLimits(trigger, limits)
    ensures HasRoom(before, trigger, amount, deadline, now, limits) && Inside(trigger, limits)
  {
    var windows, asks := Expire(before, now).windows, Asks(trigger.dimension, trigger.amounts);
    if ReservesWindows(trigger) && Refusal(windows, asks, amount, now) == |asks| {
      DistinctIsRoomy(windows, asks, amount, now, limits);
    }
  }

  lemma ReserveKeepsBooks(
      before: Ledger, trigger: Trigger, amount: nat, deadline: Option<nat>, id: LeaseId, clock: nat, now: nat,
      limits: Limits)
    requires Sound(before, clock) && clock <= now && Admissible(before, amount, deadline, id, now)
    requires Books(before, limits) && SafeTrigger(trigger) && WithinLimits(trigger, limits)
    ensures Books(Reserve(before, trigger, amount, deadline, id, now).0, limits)
  {
    SafeHasRoom(before, trigger, amount, deadline, now, limits);
    RoomKeepsBooks(before, trigger, amount, deadline, id, clock, now, limits);
  }
}
