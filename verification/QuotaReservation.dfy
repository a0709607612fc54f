/** Reserving several resources for one request under local rules: all of them or none. */
module QuotaReservation {
  import opened QuotaTypes
  import opened QuotaLedger
  import opened LedgerSums
  import opened LedgerLaws
  import opened ReserveLaws
  import opened LedgerRuns
  import opened LeaseRetries

  /** One requested resource, the trigger selected for it, and the id its lease would get. */
  datatype Quota = Quota(trigger: Trigger, amount: nat, id: LeaseId)

  /** Reserves in order up to the first refusal: the ledger, the quotas granted, and whether none
      was refused. */
  ghost function ReserveEach(
      ledger: Ledger, quotas: seq<Quota>, deadline: Option<nat>, now: nat): (Ledger, seq<Quota>, bool) {
    if quotas == [] then (ledger, [], true)
    else
      var last := quotas[|quotas| - 1];
      var (before, granted, fine) := ReserveEach(ledger, quotas[..|quotas| - 1], deadline, now);
      if !fine then (before, granted, false)
      else
        var (after, outcome) := Reserve(before, last.trigger, last.amount, deadline, last.id, now);
        match outcome
        case Reserved => (after, granted + [last], true)
        case NotConfigured => (after, granted, true)
        case Rejected => (after, granted, false)
        case Unrepresentable => (after, granted, false)
  }

  /** Abandons the granted leases with the totals every request starts from. */
  ghost function RollBack(ledger: Ledger, granted: seq<Quota>, now: nat): Ledger {
    if granted == [] then ledger
    else
      var last := granted[|granted| - 1];
      Finish(RollBack(ledger, granted[..|granted| - 1], now), last.id, InitialConsumedTotal(last.trigger), 1, now).0
  }

  ghost function ReserveAll(
      ledger: Ledger, quotas: seq<Quota>, deadline: Option<nat>, now: nat): (Ledger, Option<seq<Quota>>) {
    var (after, granted, fine) := ReserveEach(ledger, quotas, deadline, now);
    if fine then (after, Some(granted)) else (RollBack(after, granted, now), None)
  }

  // ---------- what a valid request gives ----------

  predicate DistinctIds(quotas: seq<Quota>) {
    forall i, j :: 0 <= i < j < |quotas| ==> quotas[i].id != quotas[j].id
  }

  ghost predicate ValidRequest(ledger: Ledger, quotas: seq<Quota>, deadline: Option<nat>, now: nat) {
    && DistinctIds(quotas)
    && forall quota :: quota in quotas ==> Admissible(ledger, quota.amount, deadline, quota.id, now)
  }

  ghost predicate SafeQuotas(quotas: seq<Quota>, limits: Limits) {
    forall quota :: quota in quotas ==> SafeTrigger(quota.trigger) && WithinLimits(quota.trigger, limits)
  }

  function OpenedIds(granted: seq<Quota>): set<LeaseId> {
    set i | 0 <= i < |granted| :: granted[i].id
  }

  /** The lease a quota opens, before anything is reported on it. */
  ghost predicate NewLease(lease: LocalLease, quota: Quota, deadline: Option<nat>) {
    && lease.sequence == 0 && lease.consumedTotal == InitialConsumedTotal(quota.trigger)
    && lease.reservedAmount == quota.amount && deadline == Some(lease.expiresAt)
    && (lease.accounting.Consumable? <==> ReservesWindows(quota.trigger))
  }

  /** `ledger` is `base`, as to leases and settlements, with the leases of `granted` added. */
  ghost predicate Adds(base: Ledger, ledger: Ledger, granted: seq<Quota>, deadline: Option<nat>) {
    && ledger.retired == base.retired && ledger.completed == base.completed
    && ledger.leases.Keys == base.leases.Keys + OpenedIds(granted)
    && (forall id :: id in base.leases ==> ledger.leases[id] == base.leases[id])
    && (forall quota :: quota in granted ==>
        quota.id in ledger.leases && NewLease(ledger.leases[quota.id], quota, deadline))
  }

  /** Sound, and nothing in it has expired. */
  ghost predicate Ready(ledger: Ledger, now: nat) {
    Sound(ledger, now) && Fresh(ledger, now)
  }

  lemma OpenedIdsGrow(granted: seq<Quota>, last: Quota)
    ensures OpenedIds(granted + [last]) == OpenedIds(granted) + {last.id}
  {
    var more := granted + [last];
    assert forall i :: 0 <= i < |granted| ==> more[i] == granted[i];
    assert more[|granted|] == last;
    forall id | id in OpenedIds(granted) + {last.id}
      ensures id in OpenedIds(more)
    {
      if id != last.id {
        var i :| 0 <= i < |granted| && granted[i].id == id;
        assert more[i].id == id;
      }
    }
  }

  /** Reserving one quota on a ledger in which nothing has expired opens its lease or nothing. */
  ghost predicate OpensOrNot(
      before: Ledger, after: Ledger, outcome: ReserveOutcome, quota: Quota, deadline: Option<nat>) {
    && after.retired == before.retired && after.completed == before.completed
    && (if outcome.Reserved?
        then quota.id in after.leases && NewLease(after.leases[quota.id], quota, deadline)
             && after.leases == before.leases[quota.id := after.leases[quota.id]]
        else after.leases == before.leases)
  }

  lemma ReserveOpensOrNot(ledger: Ledger, quota: Quota, deadline: Option<nat>, now: nat)
    requires Fresh(ledger, now)
    ensures var (after, outcome) := Reserve(ledger, quota.trigger, quota.amount, deadline, quota.id, now);
            OpensOrNot(ledger, after, outcome, quota, deadline)
  {
    FreshIsFixed(ledger, now);
    if deadline.Some? && ReservesWindows(quota.trigger) {
      OpensNewLease(ledger, quota, deadline.value, now);
    } else if deadline.Some? && quota.trigger.resource.Concurrency? {
      OccupiesNewLease(ledger, quota, deadline.value);
    }
  }

  lemma ReserveStaysReady(
      ledger: Ledger, quota: Quota, deadline: Option<nat>, now: nat, after: Ledger, outcome: ReserveOutcome)
    requires Ready(ledger, now) && Admissible(ledger, quota.amount, deadline, quota.id, now)
    requires (after, outcome) == Reserve(ledger, quota.trigger, quota.amount, deadline, quota.id, now)
    ensures Ready(after, now) && OpensOrNot(ledger, after, outcome, quota, deadline)
  {
    ReserveKeepsSound(ledger, quota.trigger, quota.amount, deadline, quota.id, now, now);
    ReserveOpensOrNot(ledger, quota, deadline, now);
    ReserveKeepsWidth(ledger, quota, deadline, now);
    StaysFresh(ledger, after, outcome, quota, deadline, now);
  }

  ghost predicate FitWidth(ledger: Ledger) {
    forall key :: key in ledger.windows ==> ledger.windows[key].committed <= U32_MAX
  }

  lemma OpeningKeepsWidth(ledger: Ledger, quota: Quota, expiresAt: nat, now: nat)
    requires FitWidth(ledger)
    ensures FitWidth(ReserveWindows(ledger, quota.trigger, quota.amount, expiresAt, quota.id, now).0)
  {
    var asks := Asks(quota.trigger.dimension, quota.trigger.amounts);
    if Refusal(ledger.windows, asks, quota.amount, now) < |asks| {
      OpenRejects(ledger, quota.trigger, quota.amount, expiresAt, quota.id, now);
    } else if asks != [] {
      OpenAdmits(ledger, quota.trigger, quota.amount, expiresAt, quota.id, now);
    }
  }

  lemma ReserveKeepsWidth(ledger: Ledger, quota: Quota, deadline: Option<nat>, now: nat)
    requires Fresh(ledger, now)
    ensures FitWidth(Reserve(ledger, quota.trigger, quota.amount, deadline, quota.id, now).0)
  {
    FreshIsFixed(ledger, now);
    if deadline.Some? && ReservesWindows(quota.trigger) {
      OpeningKeepsWidth(ledger, quota, deadline.value, now);
    }
  }

  lemma StaysFresh(
      before: Ledger, after: Ledger, outcome: ReserveOutcome, quota: Quota, deadline: Option<nat>, now: nat)
    requires Fresh(before, now) && OpensOrNot(before, after, outcome, quota, deadline) && FitWidth(after)
    requires deadline.Some? ==> deadline.value > now
    ensures Fresh(after, now)
  {
  }

  lemma OpensNewLease(ledger: Ledger, quota: Quota, expiresAt: nat, now: nat)
    requires ReservesWindows(quota.trigger)
    ensures var (after, outcome) := ReserveWindows(ledger, quota.trigger, quota.amount, expiresAt, quota.id, now);
            OpensOrNot(ledger, after, outcome, quota, Some(expiresAt))
  {
    var asks := Asks(quota.trigger.dimension, quota.trigger.amounts);
    if Refusal(ledger.windows, asks, quota.amount, now) < |asks| {
      OpenRejects(ledger, quota.trigger, quota.amount, expiresAt, quota.id, now);
    } else if asks != [] {
      OpenAdmits(ledger, quota.trigger, quota.amount, expiresAt, quota.id, now);
    }
  }

  lemma OccupiesNewLease(ledger: Ledger, quota: Quota, expiresAt: nat)
    requires quota.trigger.resource.Concurrency?
    ensures var (after, outcome) := ReserveSlots(ledger, quota.trigger, quota.amount, expiresAt, quota.id);
            OpensOrNot(ledger, after, outcome, quota, Some(expiresAt))
  {
  }

  lemma AddsNext(
      base: Ledger, before: Ledger, after: Ledger, outcome: ReserveOutcome, granted: seq<Quota>, last: Quota,
      deadline: Option<nat>)
    requires Adds(base, before, granted, deadline) && OpensOrNot(before, after, outcome, last, deadline)
    requires last.id !in OpenedIds(granted) && last.id !in base.leases
    ensures Adds(base, after, if outcome.Reserved? then granted + [last] else granted, deadline)
  {
    if outcome.Reserved? {
      OpenedIdsGrow(granted, last);
      forall quota | quota in granted
        ensures quota.id in after.leases && NewLease(after.leases[quota.id], quota, deadline)
      {
        var i :| 0 <= i < |granted| && granted[i] == quota;
        assert granted[i].id in OpenedIds(granted);
      }
    }
  }

  /** How far `ReserveEach` has come: the quotas in `granted`, taken from `quotas`, have leases. */
  ghost predicate Granting(
      base: Ledger, ledger: Ledger, granted: seq<Quota>, quotas: seq<Quota>, deadline: Option<nat>, now: nat) {
    && Ready(ledger, now) && Adds(base, ledger, granted, deadline)
    && DistinctIds(granted) && forall quota :: quota in granted ==> quota in quotas
  }

  lemma GrantNext(
      base: Ledger, before: Ledger, after: Ledger, outcome: ReserveOutcome, granted: seq<Quota>, quotas: seq<Quota>,
      last: Quota, deadline: Option<nat>, now: nat)
    requires quotas != [] && last == quotas[|quotas| - 1] && ValidRequest(base, quotas, deadline, now)
    requires Granting(base, before, granted, quotas[..|quotas| - 1], deadline, now)
    requires (after, outcome) == Reserve(before, last.trigger, last.amount, deadline, last.id, now)
    ensures Granting(base, after, if outcome.Reserved? then granted + [last] else granted, quotas, deadline, now)
  {
    assert last in quotas;
    NotYetOpened(quotas, granted);
    ReserveStaysReady(before, last, deadline, now, after, outcome);
    AddsNext(base, before, after, outcome, granted, last, deadline);
  }

  /** The last quota of a call, when none before it has been refused. */
  lemma ReservesLast(
      ledger: Ledger, quotas: seq<Quota>, deadline: Option<nat>, now: nat, before: Ledger, granted: seq<Quota>,
      after: Ledger, outcome: ReserveOutcome)
    requires quotas != [] && ReserveEach(ledger, quotas[..|quotas| - 1], deadline, now) == (before, granted, true)
    requires var last := quotas[|quotas| - 1];
             (after, outcome) == Reserve(before, last.trigger, last.amount, deadline, last.id, now)
    ensures ReserveEach(ledger, quotas, deadline, now)
      == (after, if outcome.Reserved? then granted + [quotas[|quotas| - 1]] else granted,
          outcome.Reserved? || outcome.NotConfigured?)
  {
  }

  lemma GrantingMore(
      base: Ledger, ledger: Ledger, granted: seq<Quota>, quotas: seq<Quota>, deadline: Option<nat>, now: nat)
    requires quotas != [] && Granting(base, ledger, granted, quotas[..|quotas| - 1], deadline, now)
    ensures Granting(base, ledger, granted, quotas, deadline, now)
  {
  }

  /** Under any rules, a call opens exactly the leases it is granted. */
  lemma {:induction false} EachOpens(base: Ledger, quotas: seq<Quota>, deadline: Option<nat>, now: nat)
    requires Ready(base, now) && ValidRequest(base, quotas, deadline, now)
    ensures var (after, granted, fine) := ReserveEach(base, quotas, deadline, now);
            Granting(base, after, granted, quotas, deadline, now)
  {
    if quotas != [] {
      var init, last := quotas[..|quotas| - 1], quotas[|quotas| - 1];
      EachOpens(base, init, deadline, now);
      var (before, granted, fine) := ReserveEach(base, init, deadline, now);
      if fine {
        var (after, outcome) := Reserve(before, last.trigger, last.amount, deadline, last.id, now);
        ReservesLast(base, quotas, deadline, now, before, granted, after, outcome);
        GrantNext(base, before, after, outcome, granted, quotas, last, deadline, now);
      } else {
        GrantingMore(base, before, granted, quotas, deadline, now);
      }
    }
  }

  // ---------- what safe rules add ----------

  /** The leases of `granted` are charged once per window. */
  ghost predicate SeparateLeases(leases: map<LeaseId, LocalLease>, granted: seq<Quota>) {
    forall quota :: quota in granted ==> quota.id in leases && Separate(leases[quota.id])
  }

  lemma OpensSeparately(ledger: Ledger, quota: Quota, deadline: Option<nat>, now: nat)
    requires Fresh(ledger, now) && SafeTrigger(quota.trigger)
    ensures var (after, outcome) := Reserve(ledger, quota.trigger, quota.amount, deadline, quota.id, now);
            outcome.Reserved? ==> quota.id in after.leases && Separate(after.leases[quota.id])
  {
    FreshIsFixed(ledger, now);
    if deadline.Some? && ReservesWindows(quota.trigger) {
      WindowsOpenSeparately(ledger, quota, deadline.value, now);
    }
  }

  lemma WindowsOpenSeparately(ledger: Ledger, quota: Quota, expiresAt: nat, now: nat)
    requires DistinctKeys(Asks(quota.trigger.dimension, quota.trigger.amounts))
    ensures var (after, outcome) := ReserveWindows(ledger, quota.trigger, quota.amount, expiresAt, quota.id, now);
            outcome.Reserved? ==> quota.id in after.leases && Separate(after.leases[quota.id])
  {
    var asks := Asks(quota.trigger.dimension, quota.trigger.amounts);
    var rs := ReservationsOf(ledger.windows, asks, now);
    assert forall i :: 0 <= i < |rs| ==> rs[i].key == asks[i].key;
    if Refusal(ledger.windows, asks, quota.amount, now) < |asks| {
      OpenRejects(ledger, quota.trigger, quota.amount, expiresAt, quota.id, now);
    } else if asks != [] {
      OpenAdmits(ledger, quota.trigger, quota.amount, expiresAt, quota.id, now);
      assert Separate(WindowLease(quota.trigger, quota.amount, expiresAt, rs));
    }
  }

  lemma SeparateNext(
      before: Ledger, after: Ledger, outcome: ReserveOutcome, granted: seq<Quota>, last: Quota, deadline: Option<nat>)
    requires OpensOrNot(before, after, outcome, last, deadline) && SeparateLeases(before.leases, granted)
    requires outcome.Reserved? ==> Separate(after.leases[last.id])
    ensures SeparateLeases(after.leases, if outcome.Reserved? then granted + [last] else granted)
  {
  }

  lemma KeepsInOrder(
      before: Ledger, after: Ledger, outcome: ReserveOutcome, granted: seq<Quota>, last: Quota, deadline: Option<nat>,
      now: nat, limits: Limits)
    requires Ready(before, now) && Admissible(before, last.amount, deadline, last.id, now)
    requires Books(before, limits) && SafeTrigger(last.trigger) && WithinLimits(last.trigger, limits)
    requires SeparateLeases(before.leases, granted)
    requires (after, outcome) == Reserve(before, last.trigger, last.amount, deadline, last.id, now)
    ensures Books(after, limits)
    ensures SeparateLeases(after.leases, if outcome.Reserved? then granted + [last] else granted)
  {
    ReserveKeepsBooks(before, last.trigger, last.amount, deadline, last.id, now, now, limits);
    ReserveOpensOrNot(before, last, deadline, now);
    OpensSeparately(before, last, deadline, now);
    SeparateNext(before, after, outcome, granted, last, deadline);
  }

  /** Under rules that repeat no window length the books stay in order throughout the call. */
  lemma {:induction false} EachKeepsBooks(
      base: Ledger, quotas: seq<Quota>, deadline: Option<nat>, now: nat, limits: Limits)
    requires Ready(base, now) && ValidRequest(base, quotas, deadline, now)
    requires Books(base, limits) && SafeQuotas(quotas, limits)
    ensures var (after, granted, fine) := ReserveEach(base, quotas, deadline, now);
            Books(after, limits) && SeparateLeases(after.leases, granted)
  {
    if quotas != [] {
      var init, last := quotas[..|quotas| - 1], quotas[|quotas| - 1];
      EachKeepsBooks(base, init, deadline, now, limits);
      var (before, granted, fine) := ReserveEach(base, init, deadline, now);
      if fine {
        EachOpens(base, init, deadline, now);
        NotYetOpened(quotas, granted);
        assert last in quotas;
        var (after, outcome) := Reserve(before, last.trigger, last.amount, deadline, last.id, now);
        ReservesLast(base, quotas, deadline, now, before, granted, after, outcome);
        KeepsInOrder(before, after, outcome, granted, last, deadline, now, limits);
      }
    }
  }

  lemma NotYetOpened(quotas: seq<Quota>, granted: seq<Quota>)
    requires quotas != [] && DistinctIds(quotas) && DistinctIds(granted)
    requires forall quota :: quota in granted ==> quota in quotas[..|quotas| - 1]
    ensures quotas[|quotas| - 1].id !in OpenedIds(granted) && DistinctIds(granted + [quotas[|quotas| - 1]])
  {
    forall i | 0 <= i < |granted|
      ensures granted[i].id != quotas[|quotas| - 1].id
    {
      assert granted[i] in granted;
      var j :| 0 <= j < |quotas| - 1 && quotas[j] == granted[i];
    }
  }

  // ---------- rolling back ----------

  /** Of `full`, the first leases of `granted` have been settled as they were opened. */
  ghost predicate Undoing(base: Ledger, full: Ledger, ledger: Ledger, undone: seq<Quota>) {
    && ledger.leases == full.leases - OpenedIds(undone)
    && ledger.retired.Keys == base.retired.Keys + OpenedIds(undone)
    && (forall id :: id in base.retired ==> ledger.retired[id] == base.retired[id])
    && (forall quota :: quota in undone ==>
        quota.id in full.leases && ledger.retired[quota.id] == full.leases[quota.id])
  }

  /** Abandoning a lease nobody reported on settles it with the total it started from. */
  lemma UndoEffect(ledger: Ledger, quota: Quota, deadline: Option<nat>, now: nat)
    requires Sound(ledger, now) && Fresh(ledger, now)
    requires quota.id in ledger.leases && NewLease(ledger.leases[quota.id], quota, deadline)
    ensures var total := InitialConsumedTotal(quota.trigger);
            var after := Finish(ledger, quota.id, total, 1, now).0;
            && after.leases == ledger.leases - {quota.id}
            && after.retired == ledger.retired[quota.id := ledger.leases[quota.id]]
            && after.completed == ledger.completed[quota.id := CompletedLease(total, 1, now + RETENTION)]
  {
    var total := InitialConsumedTotal(quota.trigger);
    var lease := ledger.leases[quota.id];
    FreshIsFixed(ledger, now);
    assert SoundLease(ledger.windows, lease, now);
    assert lease.(consumedTotal := total) == lease;
    FinishFrame(ledger, quota.id, total, 1, now);
    FinishSettles(ledger, now, now, quota.id, lease, total, 1);
    assert quota.id !in ledger.retired;
  }

  lemma UndoOne(ledger: Ledger, quota: Quota, deadline: Option<nat>, now: nat)
    requires Ready(ledger, now) && quota.id in ledger.leases && NewLease(ledger.leases[quota.id], quota, deadline)
    ensures var after := Finish(ledger, quota.id, InitialConsumedTotal(quota.trigger), 1, now).0;
            && Ready(after, now)
            && after.leases == ledger.leases - {quota.id}
            && after.retired == ledger.retired[quota.id := ledger.leases[quota.id]]
  {
    var total := InitialConsumedTotal(quota.trigger);
    var after := Finish(ledger, quota.id, total, 1, now).0;
    UndoEffect(ledger, quota, deadline, now);
    FinishKeepsSound(ledger, quota.id, total, 1, now, now);
    FinishKeepsWidth(ledger, quota.id, total, 1, now);
    FreshAfterUndo(ledger, after, quota.id, CompletedLease(total, 1, now + RETENTION), now);
  }

  lemma FinishKeepsWidth(ledger: Ledger, id: LeaseId, consumedTotal: nat, sequence: nat, now: nat)
    ensures FitWidth(Finish(ledger, id, consumedTotal, sequence, now).0)
  {
  }

  lemma FreshAfterUndo(ledger: Ledger, after: Ledger, id: LeaseId, record: CompletedLease, now: nat)
    requires Fresh(ledger, now) && FitWidth(after) && record.expiresAt > now
    requires after.leases == ledger.leases - {id} && after.completed == ledger.completed[id := record]
    ensures Fresh(after, now)
  {
  }

  lemma UndoNext(base: Ledger, full: Ledger, before: Ledger, after: Ledger, undone: seq<Quota>, quota: Quota)
    requires Undoing(base, full, before, undone) && quota.id !in OpenedIds(undone) && quota.id !in base.retired
    requires quota.id in full.leases
    requires after.leases == before.leases - {quota.id}
    requires after.retired == before.retired[quota.id := full.leases[quota.id]]
    ensures Undoing(base, full, after, undone + [quota])
  {
    OpenedIdsGrow(undone, quota);
    forall other | other in undone
      ensures other.id != quota.id
    {
      var i :| 0 <= i < |undone| && undone[i] == other;
      assert undone[i].id in OpenedIds(undone);
    }
  }

  /** Under any rules, rolling back settles the leases one by one as they were opened. */
  lemma {:induction false} RollBackUndoes(
      base: Ledger, full: Ledger, granted: seq<Quota>, undone: seq<Quota>, deadline: Option<nat>, now: nat)
    requires Ready(full, now) && Adds(base, full, granted, deadline) && DistinctIds(granted)
    requires undone <= granted
    ensures Ready(RollBack(full, undone, now), now) && Undoing(base, full, RollBack(full, undone, now), undone)
  {
    if undone != [] {
      var init, last := undone[..|undone| - 1], undone[|undone| - 1];
      assert init + [last] == undone && last == granted[|init|] && last in granted;
      RollBackUndoes(base, full, granted, init, deadline, now);
      var before := RollBack(full, init, now);
      assert last.id !in OpenedIds(init) by {
        forall i | 0 <= i < |init|
          ensures init[i].id != last.id
        {
          assert granted[i] == init[i];
        }
      }
      UndoOne(before, last, deadline, now);
      UndoNext(base, full, before, Finish(before, last.id, InitialConsumedTotal(last.trigger), 1, now).0, init, last);
    }
  }

  lemma {:induction false} RollBackKeepsBooks(full: Ledger, granted: seq<Quota>, now: nat, limits: Limits)
    requires Sound(full, now) && Books(full, limits)
    ensures Sound(RollBack(full, granted, now), now) && Books(RollBack(full, granted, now), limits)
  {
    if granted != [] {
      var init, last := granted[..|granted| - 1], granted[|granted| - 1];
      RollBackKeepsBooks(full, init, now, limits);
      FinishKeepsSound(RollBack(full, init, now), last.id, InitialConsumedTotal(last.trigger), 1, now, now);
      FinishKeepsBooks(RollBack(full, init, now), last.id, InitialConsumedTotal(last.trigger), 1, now, now, limits);
    }
  }

  // ---------- what a failed request leaves behind ----------

  /** Windows are only ever added or rolled forward. */
  ghost predicate Advanced(before: map<WindowKey, QuotaWindow>, after: map<WindowKey, QuotaWindow>) {
    forall key :: key in before ==> key in after && before[key].generation <= after[key].generation
  }

  lemma ExpireAdvances(ledger: Ledger, now: nat)
    ensures Advanced(ledger.windows, Expire(ledger, now).windows)
  {
  }

  lemma ReserveAdvances(before: Ledger, trigger: Trigger, amount: nat, deadline: Option<nat>, id: LeaseId, now: nat)
    ensures Advanced(before.windows, Reserve(before, trigger, amount, deadline, id, now).0.windows)
  {
    var ledger := Expire(before, now);
    ExpireAdvances(before, now);
    if deadline.Some? && ReservesWindows(trigger) {
      WindowsAdvance(ledger, trigger, amount, deadline.value, id, now);
    }
  }

  lemma WindowsAdvance(ledger: Ledger, trigger: Trigger, amount: nat, expiresAt: nat, id: LeaseId, now: nat)
    ensures Advanced(ledger.windows, ReserveWindows(ledger, trigger, amount, expiresAt, id, now).0.windows)
  {
  }

  lemma FinishAdvances(before: Ledger, id: LeaseId, consumedTotal: nat, sequence: nat, now: nat)
    ensures Advanced(before.windows, Finish(before, id, consumedTotal, sequence, now).0.windows)
  {
    ExpireAdvances(before, now);
  }

  lemma {:induction false} EachAdvances(base: Ledger, quotas: seq<Quota>, deadline: Option<nat>, now: nat)
    ensures Advanced(base.windows, ReserveEach(base, quotas, deadline, now).0.windows)
  {
    if quotas != [] {
      var last := quotas[|quotas| - 1];
      EachAdvances(base, quotas[..|quotas| - 1], deadline, now);
      var before := ReserveEach(base, quotas[..|quotas| - 1], deadline, now).0;
      ReserveAdvances(before, last.trigger, last.amount, deadline, last.id, now);
    }
  }

  lemma {:induction false} RollBackAdvances(full: Ledger, granted: seq<Quota>, now: nat)
    ensures Advanced(full.windows, RollBack(full, granted, now).windows)
  {
    if granted != [] {
      var last := granted[|granted| - 1];
      RollBackAdvances(full, granted[..|granted| - 1], now);
      var rolled := RollBack(full, granted[..|granted| - 1], now);
      FinishAdvances(rolled, last.id, InitialConsumedTotal(last.trigger), 1, now);
    }
  }

  /** The quotas whose trigger counts requests: at most one in a request, which names every
      resource once. */
  predicate OneQps(quotas: seq<Quota>) {
    forall a, b :: a in quotas && b in quotas && a.trigger.resource.Qps? && b.trigger.resource.Qps? ==> a == b
  }

  /** Whether an abandoned request-counting lease had reserved in this generation of a window. */
  ghost predicate CountedRequest(
      retired: map<LeaseId, LocalLease>, quotas: seq<Quota>, key: WindowKey, generation: nat) {
    exists quota :: quota in quotas && quota.trigger.resource.Qps? && quota.id in retired
      && Reservation(key, generation) in retired[quota.id].windows
  }

  lemma NewLeaseSpends(lease: LocalLease, quota: Quota, deadline: Option<nat>, key: WindowKey, generation: nat)
    requires NewLease(lease, quota, deadline) && Separate(lease)
    ensures Weight(Spent(key, generation), lease)
            == if quota.trigger.resource.Qps? && Reservation(key, generation) in lease.windows then 1 else 0
  {
    if Reservation(key, generation) in lease.windows {
      var at :| 0 <= at < |lease.windows| && lease.windows[at] == Reservation(key, generation);
      ChargeOnce(lease.windows, at, lease.consumedTotal);
    } else {
      ChargeAbsent(lease.windows, key, generation, lease.consumedTotal);
    }
  }

  /** What rolling back adds to a window's committed count: the one request, if it was counted. */
  lemma RolledBackSpends(
      rolled: map<LeaseId, LocalLease>, granted: seq<Quota>, deadline: Option<nat>, key: WindowKey, generation: nat)
    requires rolled.Keys == OpenedIds(granted) && OneQps(granted) && SeparateLeases(rolled, granted)
    requires forall quota :: quota in granted ==> quota.id in rolled && NewLease(rolled[quota.id], quota, deadline)
    ensures Total(rolled, Spent(key, generation)) == if CountedRequest(rolled, granted, key, generation) then 1 else 0
  {
    forall quota | quota in granted
      ensures Weight(Spent(key, generation), rolled[quota.id])
              == if quota.trigger.resource.Qps? && Reservation(key, generation) in rolled[quota.id].windows
                 then 1 else 0
    {
      NewLeaseSpends(rolled[quota.id], quota, deadline, key, generation);
    }
    if CountedRequest(rolled, granted, key, generation) {
      var counted :| counted in granted && counted.trigger.resource.Qps? && counted.id in rolled
        && Reservation(key, generation) in rolled[counted.id].windows;
      TotalRemove(rolled, counted.id, Spent(key, generation));
      var rest := rolled - {counted.id};
      forall id | id in rest
        ensures Weight(Spent(key, generation), rest[id]) == 0
      {
        var i :| 0 <= i < |granted| && granted[i].id == id;
        assert granted[i] in granted && granted[i] != counted;
      }
      TotalZero(rest, Spent(key, generation));
    } else {
      forall id | id in rolled
        ensures Weight(Spent(key, generation), rolled[id]) == 0
      {
        var i :| 0 <= i < |granted| && granted[i].id == id;
        assert granted[i] in granted;
      }
      TotalZero(rolled, Spent(key, generation));
    }
  }

  /** A window's counters as they were, or empty when it was created or rolled over since. */
  function Prior(windows: map<WindowKey, QuotaWindow>, key: WindowKey, generation: nat): (nat, nat) {
    if key in windows && windows[key].generation == generation
    then (windows[key].committed, windows[key].reserved)
    else (0, 0)
  }

  lemma PriorTotals(base: Ledger, key: WindowKey, generation: nat, now: nat)
    requires Sound(base, now) && Balanced(base)
    requires key in base.windows ==> base.windows[key].generation <= generation
    ensures Prior(base.windows, key, generation)
            == (Total(base.retired, Spent(key, generation)), Total(base.leases, Held(key, generation)))
  {
    if key in base.windows && base.windows[key].generation == generation {
      assert WindowBalanced(base, key);
    } else {
      NothingInTheFuture(base, key, generation, now);
    }
  }

  lemma InRolled(granted: seq<Quota>)
    ensures forall quota :: quota in granted ==> quota.id in OpenedIds(granted)
  {
    forall quota | quota in granted
      ensures quota.id in OpenedIds(granted)
    {
      var i :| 0 <= i < |granted| && granted[i] == quota;
      assert granted[i].id == quota.id;
    }
  }

  /** One window as it was found, except for the one request that was already counted. */
  ghost predicate RestoredAt(base: Ledger, after: Ledger, quotas: seq<Quota>, key: WindowKey)
    requires key in after.windows
  {
    var window := after.windows[key];
    var (committed, reserved) := Prior(base.windows, key, window.generation);
    && window.reserved == reserved
    && window.committed == committed + (if CountedRequest(after.retired, quotas, key, window.generation) then 1 else 0)
  }

  /** What a failed reservation restores: nothing it opened is live, every window and slot is there as it
      was found, but a window that counts requests keeps the one request already counted. */
  ghost predicate Restored(base: Ledger, after: Ledger, quotas: seq<Quota>) {
    && after.leases == base.leases && base.windows.Keys <= after.windows.Keys
    && (forall key :: key in after.windows ==> RestoredAt(base, after, quotas, key))
    && (forall slot :: Occupied(after.concurrency, slot) == Occupied(base.concurrency, slot))
    && (forall id :: id in base.retired ==> id in after.retired && after.retired[id] == base.retired[id])
  }

  /** The leases of `granted`, and nothing else, have moved from being opened to being settled. */
  ghost predicate Undone(base: Ledger, after: Ledger, granted: seq<Quota>, deadline: Option<nat>) {
    && after.leases == base.leases
    && after.retired.Keys == base.retired.Keys + OpenedIds(granted) && base.retired.Keys !! OpenedIds(granted)
    && (forall id :: id in base.retired ==> after.retired[id] == base.retired[id])
    && (forall quota :: quota in granted ==>
        quota.id in after.retired && NewLease(after.retired[quota.id], quota, deadline))
  }

  lemma AddedThenUndone(base: Ledger, full: Ledger, after: Ledger, granted: seq<Quota>, deadline: Option<nat>)
    requires Adds(base, full, granted, deadline) && Undoing(base, full, after, granted)
    requires forall quota :: quota in granted ==> quota.id !in base.leases && quota.id !in base.retired
    ensures Undone(base, after, granted, deadline)
  {
    InRolled(granted);
    OutsideBase(base, granted);
  }

  /** The settled leases are those of `base` and the ones rolled back. */
  lemma UndoneSplits(
      base: Ledger, after: Ledger, granted: seq<Quota>, deadline: Option<nat>, rolled: map<LeaseId, LocalLease>,
      measure: Measure)
    requires Undone(base, after, granted, deadline)
    requires rolled == map id | id in OpenedIds(granted) :: after.retired[id]
    ensures Total(after.retired, measure) == Total(base.retired, measure) + Total(rolled, measure)
  {
    assert base.retired + rolled == after.retired;
    TotalUnion(base.retired, rolled, measure);
  }

  lemma SameCount(
      after: Ledger, granted: seq<Quota>, rolled: map<LeaseId, LocalLease>, key: WindowKey, generation: nat)
    requires rolled.Keys == OpenedIds(granted) <= after.retired.Keys
    requires forall id :: id in rolled ==> rolled[id] == after.retired[id]
    ensures CountedRequest(rolled, granted, key, generation)
        <==> CountedRequest(after.retired, granted, key, generation)
  {
    InRolled(granted);
  }

  lemma RolledBackCounts(
      base: Ledger, after: Ledger, granted: seq<Quota>, deadline: Option<nat>, key: WindowKey, generation: nat)
    requires Undone(base, after, granted, deadline) && OneQps(granted) && SeparateLeases(after.retired, granted)
    ensures Total(after.retired, Spent(key, generation))
         == Total(base.retired, Spent(key, generation))
            + if CountedRequest(after.retired, granted, key, generation) then 1 else 0
  {
    var rolled := map id | id in OpenedIds(granted) :: after.retired[id];
    UndoneSplits(base, after, granted, deadline, rolled, Spent(key, generation));
    InRolled(granted);
    RolledBackSpends(rolled, granted, deadline, key, generation);
    SameCount(after, granted, rolled, key, generation);
  }

  lemma RestoredWindow(
      base: Ledger, after: Ledger, granted: seq<Quota>, deadline: Option<nat>, key: WindowKey, now: nat)
    requires Sound(base, now) && Balanced(base) && Balanced(after) && Advanced(base.windows, after.windows)
    requires Undone(base, after, granted, deadline) && OneQps(granted) && SeparateLeases(after.retired, granted)
    requires key in after.windows
    ensures RestoredAt(base, after, granted, key)
  {
    assert WindowBalanced(after, key);
    PriorTotals(base, key, after.windows[key].generation, now);
    RolledBackCounts(base, after, granted, deadline, key, after.windows[key].generation);
  }

  lemma RollBackSettles(
      base: Ledger, full: Ledger, granted: seq<Quota>, quotas: seq<Quota>, deadline: Option<nat>, now: nat)
    requires Granting(base, full, granted, quotas, deadline, now)
    requires forall quota :: quota in granted ==> quota.id !in base.leases && quota.id !in base.retired
    ensures Undone(base, RollBack(full, granted, now), granted, deadline)
  {
    RollBackUndoes(base, full, granted, granted, deadline, now);
    AddedThenUndone(base, full, RollBack(full, granted, now), granted, deadline);
  }

  lemma RollBackRestores(
      base: Ledger, full: Ledger, after: Ledger, granted: seq<Quota>, quotas: seq<Quota>, deadline: Option<nat>,
      now: nat, limits: Limits)
    requires Sound(base, now) && Books(base, limits) && Granting(base, full, granted, quotas, deadline, now)
    requires Books(full, limits) && SeparateLeases(full.leases, granted)
    requires Advanced(base.windows, full.windows) && OneQps(granted)
    requires forall quota :: quota in granted ==> quota.id !in base.leases && quota.id !in base.retired
    requires after == RollBack(full, granted, now)
    ensures Restored(base, after, granted)
  {
    RollBackSettles(base, full, granted, quotas, deadline, now);
    RollBackUndoes(base, full, granted, granted, deadline, now);
    RollBackKeepsBooks(full, granted, now, limits);
    RollBackAdvances(full, granted, now);
    InRolled(granted);
    UndoneIsRestored(base, after, granted, deadline, now);
  }

  lemma UndoneIsRestored(base: Ledger, after: Ledger, granted: seq<Quota>, deadline: Option<nat>, now: nat)
    requires Sound(base, now) && Balanced(base) && Balanced(after) && Advanced(base.windows, after.windows)
    requires Undone(base, after, granted, deadline) && OneQps(granted) && SeparateLeases(after.retired, granted)
    ensures Restored(base, after, granted)
  {
    forall key | key in after.windows
      ensures RestoredAt(base, after, granted, key)
    {
      RestoredWindow(base, after, granted, deadline, key, now);
    }
    forall slot
      ensures Occupied(after.concurrency, slot) == Occupied(base.concurrency, slot)
    {
      assert Occupied(after.concurrency, slot) == Total(after.leases, Occupying(slot));
      assert Occupied(base.concurrency, slot) == Total(base.leases, Occupying(slot));
    }
  }

  lemma OutsideBase(base: Ledger, granted: seq<Quota>)
    requires forall quota :: quota in granted ==> quota.id !in base.leases && quota.id !in base.retired
    ensures OpenedIds(granted) !! base.retired.Keys && OpenedIds(granted) !! base.leases.Keys
  {
    forall id | id in OpenedIds(granted)
      ensures id !in base.retired && id !in base.leases
    {
      var i :| 0 <= i < |granted| && granted[i].id == id;
      assert granted[i] in granted;
    }
  }

  lemma ExpiresFirst(ledger: Ledger, expired: Ledger, quota: Quota, deadline: Option<nat>, now: nat)
    requires expired == Expire(ledger, now)
    ensures Reserve(ledger, quota.trigger, quota.amount, deadline, quota.id, now)
         == Reserve(expired, quota.trigger, quota.amount, deadline, quota.id, now)
  {
    ExpireIsFresh(ledger, now);
    FreshIsFixed(expired, now);
  }

  lemma EachOfOne(ledger: Ledger, quota: Quota, deadline: Option<nat>, now: nat)
    ensures var (after, outcome) := Reserve(ledger, quota.trigger, quota.amount, deadline, quota.id, now);
            ReserveEach(ledger, [quota], deadline, now)
            == (after, if outcome.Reserved? then [quota] else [], outcome.Reserved? || outcome.NotConfigured?)
  {
    var (after, outcome) := Reserve(ledger, quota.trigger, quota.amount, deadline, quota.id, now);
    var one := [quota];
    assert one[..|one| - 1] == [] && one[|one| - 1] == quota && [] + one == one;
    ReservesLast(ledger, one, deadline, now, ledger, [], after, outcome);
  }

  lemma {:induction false} StartsWithExpiry(ledger: Ledger, quotas: seq<Quota>, deadline: Option<nat>, now: nat)
    requires quotas != []
    ensures ReserveEach(ledger, quotas, deadline, now) == ReserveEach(Expire(ledger, now), quotas, deadline, now)
  {
    if |quotas| > 1 {
      StartsWithExpiry(ledger, quotas[..|quotas| - 1], deadline, now);
    } else {
      assert quotas == [quotas[0]];
      ExpiresFirst(ledger, Expire(ledger, now), quotas[0], deadline, now);
      EachOfOne(ledger, quotas[0], deadline, now);
      EachOfOne(Expire(ledger, now), quotas[0], deadline, now);
    }
  }

  /** All or nothing: when any requested resource is refused, every lease the call opened is settled with the
      total it started from and everything else is as it was; under rules that repeat no window length and
      limits below `u32::MAX` the windows and slots are restored as well. */
  lemma FailedReserveLeavesNothingLive(
      ledger: Ledger, clock: nat, quotas: seq<Quota>, deadline: Option<nat>, now: nat, limits: Limits)
    requires Sound(ledger, clock) && clock <= now && ValidRequest(ledger, quotas, deadline, now)
    requires ReserveAll(ledger, quotas, deadline, now).1.None?
    ensures var granted := ReserveEach(ledger, quotas, deadline, now).1;
            var after := ReserveAll(ledger, quotas, deadline, now).0;
            && Undone(Expire(ledger, now), after, granted, deadline)
            && (forall quota :: quota in quotas ==> quota.id !in after.leases)
            && (forall quota :: quota in granted ==> quota in quotas && quota.id in after.retired)
            && (Books(ledger, limits) && SafeQuotas(quotas, limits) && OneQps(quotas) ==>
                  Restored(Expire(ledger, now), after, granted))
  {
    var base := Expire(ledger, now);
    ExpireKeepsSound(ledger, clock, now);
    ExpireIsFresh(ledger, now);
    assert quotas != [];
    StartsWithExpiry(ledger, quotas, deadline, now);
    ValidAfterExpiry(ledger, base, quotas, deadline, now);
    EachOpens(base, quotas, deadline, now);
    var (full, granted, fine) := ReserveEach(base, quotas, deadline, now);
    RollBackSettles(base, full, granted, quotas, deadline, now);
    if Books(ledger, limits) && SafeQuotas(quotas, limits) && OneQps(quotas) {
      ExpireKeepsBooks(ledger, clock, now, limits);
      EachKeepsBooks(base, quotas, deadline, now, limits);
      EachAdvances(base, quotas, deadline, now);
      RollBackRestores(base, full, RollBack(full, granted, now), granted, quotas, deadline, now, limits);
    }
  }

  lemma ValidAfterExpiry(ledger: Ledger, base: Ledger, quotas: seq<Quota>, deadline: Option<nat>, now: nat)
    requires ValidRequest(ledger, quotas, deadline, now)
    requires base.leases.Keys + base.retired.Keys == ledger.leases.Keys + ledger.retired.Keys
    ensures ValidRequest(base, quotas, deadline, now)
  {
    forall quota | quota in quotas
      ensures Admissible(base, quota.amount, deadline, quota.id, now)
    {
      assert quota.id !in base.leases.Keys + base.retired.Keys;
    }
  }
}
