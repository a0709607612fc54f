/** Which quotas of a call are granted and which one refuses it. */
module QuotaGrants {
  import opened QuotaTypes
  import opened QuotaLedger
  import opened ReserveLaws
  import opened CounterRules
  import opened QuotaReservation

  /** The trigger sets a limit at all. */
  ghost predicate Configured(trigger: Trigger) {
    match trigger.resource
    case Qps => HasLimit(trigger)
    case Token => HasLimit(trigger)
    case Concurrency => trigger.concurrencyMax.Some? && trigger.concurrencyMax.value > 0
    case Other => false
  }

  predicate Refuses(outcome: ReserveOutcome) {
    outcome == Rejected || outcome == Unrepresentable
  }

  /** What is neither granted nor refused is not configured, and the other way round. */
  lemma NotRefusedIsConfigured(
      ledger: Ledger, quota: Quota, deadline: Option<nat>, now: nat, outcome: ReserveOutcome)
    requires quota.amount <= U32_MAX && !Refuses(outcome)
    requires outcome == Reserve(ledger, quota.trigger, quota.amount, deadline, quota.id, now).1
    ensures outcome == Reserved <==> Configured(quota.trigger)
  {
    OtherAnswers(ledger, quota.trigger, quota.amount, deadline, quota.id, now);
    if deadline.Some? && ReservesWindows(quota.trigger) {
      WindowsGrantIff(ledger, quota.trigger, quota.amount, deadline.value, quota.id, now);
    }
  }

  lemma RejectedIsConfigured(ledger: Ledger, quota: Quota, deadline: Option<nat>, now: nat)
    requires quota.amount <= U32_MAX
    requires Reserve(ledger, quota.trigger, quota.amount, deadline, quota.id, now).1 == Rejected
    ensures Configured(quota.trigger) && deadline.Some?
  {
    OtherAnswers(ledger, quota.trigger, quota.amount, deadline, quota.id, now);
    if ReservesWindows(quota.trigger) {
      WindowsGrantIff(ledger, quota.trigger, quota.amount, deadline.value, quota.id, now);
    }
  }

  /** Exactly the configured quotas are granted by a call that is not refused. */
  ghost predicate GrantsConfigured(quotas: seq<Quota>, granted: seq<Quota>) {
    forall quota :: quota in granted <==> quota in quotas && Configured(quota.trigger)
  }

  lemma GrantsOneMore(quotas: seq<Quota>, granted: seq<Quota>, last: Quota, reserved: bool)
    requires GrantsConfigured(quotas, granted) && (reserved <==> Configured(last.trigger))
    ensures GrantsConfigured(quotas + [last], if reserved then granted + [last] else granted)
  {
    forall quota
      ensures quota in quotas + [last] <==> quota in quotas || quota == last
      ensures quota in granted + [last] <==> quota in granted || quota == last
    {
    }
  }

  lemma LastGrantsConfigured(
      quotas: seq<Quota>, granted: seq<Quota>, before: Ledger, deadline: Option<nat>, now: nat,
      outcome: ReserveOutcome)
    requires quotas != [] && quotas[|quotas| - 1].amount <= U32_MAX && !Refuses(outcome)
    requires GrantsConfigured(quotas[..|quotas| - 1], granted)
    requires var last := quotas[|quotas| - 1];
             outcome == Reserve(before, last.trigger, last.amount, deadline, last.id, now).1
    ensures GrantsConfigured(quotas, if outcome.Reserved? then granted + [quotas[|quotas| - 1]] else granted)
  {
    var init, last := quotas[..|quotas| - 1], quotas[|quotas| - 1];
    NotRefusedIsConfigured(before, last, deadline, now, outcome);
    GrantsOneMore(init, granted, last, outcome.Reserved?);
    assert quotas == init + [last];
  }

  lemma {:induction false} EachGrantsConfigured(
      ledger: Ledger, quotas: seq<Quota>, deadline: Option<nat>, now: nat)
    requires forall quota :: quota in quotas ==> quota.amount <= U32_MAX
    ensures var (after, granted, fine) := ReserveEach(ledger, quotas, deadline, now);
            fine ==> GrantsConfigured(quotas, granted)
  {
    if quotas != [] {
      var init, last := quotas[..|quotas| - 1], quotas[|quotas| - 1];
      assert last in quotas && forall quota :: quota in init ==> quota in quotas;
      EachGrantsConfigured(ledger, init, deadline, now);
      var (before, granted, fine) := ReserveEach(ledger, init, deadline, now);
      if fine {
        var (after, outcome) := Reserve(before, last.trigger, last.amount, deadline, last.id, now);
        ReservesLast(ledger, quotas, deadline, now, before, granted, after, outcome);
        if !Refuses(outcome) {
          LastGrantsConfigured(quotas, granted, before, deadline, now, outcome);
        }
      }
    }
  }

  /** The quota that refuses a call, and what those before it left. */
  lemma {:induction false} RefusingQuota(base: Ledger, quotas: seq<Quota>, deadline: Option<nat>, now: nat)
    returns (quota: Quota, held: Ledger, granted: seq<Quota>)
    requires Ready(base, now) && ValidRequest(base, quotas, deadline, now)
    requires !ReserveEach(base, quotas, deadline, now).2
    ensures quota in quotas && Adds(base, held, granted, deadline)
    ensures forall other :: other in granted ==> other in quotas
    ensures Refuses(Reserve(held, quota.trigger, quota.amount, deadline, quota.id, now).1)
  {
    var init, last := quotas[..|quotas| - 1], quotas[|quotas| - 1];
    var (before, taken, fine) := ReserveEach(base, init, deadline, now);
    if fine {
      EachOpens(base, init, deadline, now);
      var (after, outcome) := Reserve(before, last.trigger, last.amount, deadline, last.id, now);
      ReservesLast(base, quotas, deadline, now, before, taken, after, outcome);
      quota, held, granted := last, before, taken;
    } else {
      quota, held, granted := RefusingQuota(base, init, deadline, now);
    }
  }
}
