/** The local part of `DefaultRateLimitAPI::reserve`: one call that reserves every requested
    resource, rolls back on a refusal, and hands out a lease. */
module QuotaApi {
  import opened QuotaTypes
  import opened QuotaLedger
  import opened LedgerLaws
  import opened ReserveLaws
  import opened LedgerRuns
  import opened QuotaReservation
  import opened LocalQuotaCounters
  import opened LeaseClient
  import opened LeaseStandings
  import opened LeaseLaws
  import opened LeaseProtocol

  function ResourceOf(trigger: Trigger): QuotaResource {
    match trigger.resource
    case Qps => QuotaResource.Qps
    case Token => QuotaResource.Token
    case _ => QuotaResource.Concurrency
  }

  /** A request counts as one from the start; everything else as nothing. */
  function InitialConsumptions(reservations: seq<QuotaAmount>): (initial: seq<QuotaConsumption>)
    ensures |initial| == |reservations|
  {
    seq(|reservations|, i requires 0 <= i < |reservations| =>
      QuotaConsumption(reservations[i].resource, if reservations[i].resource.Qps? then 1 else 0))
  }

  function LocalBackends(granted: seq<Quota>): (backends: seq<Backend>)
    ensures |backends| == |granted|
  {
    seq(|granted|, i requires 0 <= i < |granted| => Local(granted[i].id, ResourceOf(granted[i].trigger)))
  }

  /** The backends of a lease: the remote limiter, if it granted its part, and then the local ones. */
  function BackendsOf(remote: bool, granted: seq<Quota>): (backends: seq<Backend>)
    ensures RemoteFirst(backends)
  {
    (if remote then [Remote] else []) + LocalBackends(granted)
  }

  /** What `QuotaRequest::check_valid` says about the requested amounts. */
  predicate ValidAmounts(reservations: seq<QuotaAmount>) {
    && (forall i :: 0 <= i < |reservations| ==> 0 < reservations[i].amount <= U32_MAX)
    && forall i, j :: 0 <= i < j < |reservations| ==> reservations[i].resource != reservations[j].resource
  }

  /** Every quota is for a requested resource and its amount. */
  predicate Requested(reservations: seq<QuotaAmount>, quotas: seq<Quota>) {
    forall quota :: quota in quotas ==>
      && !quota.trigger.resource.Other?
      && AmountFor(reservations, ResourceOf(quota.trigger)) == Some(quota.amount)
  }

  /** What a quota opened is what its client starts from. */
  lemma NewLeaseTracks(
      ledger: Ledger, quota: Quota, reservations: seq<QuotaAmount>, initial: seq<QuotaConsumption>, deadline: nat,
      horizon: nat)
    requires ValidAmounts(reservations) && initial == InitialConsumptions(reservations) && horizon < deadline
    requires !quota.trigger.resource.Other? && AmountFor(reservations, ResourceOf(quota.trigger)) == Some(quota.amount)
    requires quota.id in ledger.leases && NewLease(ledger.leases[quota.id], quota, Some(deadline))
    ensures TracksAt(Open(ledger.leases[quota.id]), ResourceOf(quota.trigger), reservations, initial, 0, horizon)
  {
    var at := AmountFound(reservations, ResourceOf(quota.trigger));
    AmountOf(reservations, at);
    MatchingIsDistinct(reservations, initial);
    TotalOf(initial, at);
  }

  lemma DistinctIdsDistinctBackends(remote: bool, granted: seq<Quota>)
    requires DistinctIds(granted)
    ensures DistinctBackends(BackendsOf(remote, granted))
  {
    var backends, skip := BackendsOf(remote, granted), if remote then 1 else 0;
    forall i, j | 0 <= i < j < |backends| && backends[i].Local? && backends[j].Local?
      ensures backends[i].id != backends[j].id
    {
      assert backends[i].id == granted[i - skip].id && backends[j].id == granted[j - skip].id;
    }
  }

  lemma InitialWithin(reservations: seq<QuotaAmount>)
    requires ValidAmounts(reservations)
    ensures Matching(reservations, InitialConsumptions(reservations))
    ensures Within(reservations, InitialConsumptions(reservations))
  {
  }

  /** A lease handed out by a successful reservation starts in step with all its backends. */
  lemma GrantedLeaseStartsInStep(
      base: Ledger, ledger: Ledger, remote: bool, granted: seq<Quota>, reservations: seq<QuotaAmount>, deadline: nat,
      horizon: nat)
    requires Adds(base, ledger, granted, Some(deadline)) && DistinctIds(granted) && horizon < deadline
    requires ValidAmounts(reservations) && Requested(reservations, granted)
    ensures InStep(ledger, Client(InitialConsumptions(reservations), 0, false), reservations,
              BackendsOf(remote, granted), horizon)
  {
    var initial := InitialConsumptions(reservations);
    InitialWithin(reservations);
    DistinctIdsDistinctBackends(remote, granted);
    forall b | b in BackendsOf(remote, granted) && b.Local?
      ensures Tracks(ledger, b, reservations, initial, 0, horizon)
    {
      var i :| 0 <= i < |granted| && b == LocalBackends(granted)[i];
      assert granted[i] in granted;
      NewLeaseTracks(ledger, granted[i], reservations, initial, deadline, horizon);
    }
  }

  /** End to end, success: what the whole call hands out is in step on the ledger it leaves, under any rules. */
  lemma ReservedLeaseStartsInStep(
      ledger: Ledger, clock: nat, remote: bool, quotas: seq<Quota>, reservations: seq<QuotaAmount>, deadline: nat,
      now: nat, horizon: nat)
    requires Sound(ledger, clock) && clock <= now && horizon < deadline
    requires ValidRequest(ledger, quotas, Some(deadline), now)
    requires ValidAmounts(reservations) && Requested(reservations, quotas)
    ensures var (after, granted) := ReserveAll(ledger, quotas, Some(deadline), now);
            granted.Some? ==>
              InStep(after, Client(InitialConsumptions(reservations), 0, false), reservations,
                BackendsOf(remote, granted.value), horizon)
  {
    if quotas == [] {
      GrantedLeaseStartsInStep(ledger, ledger, remote, [], reservations, deadline, horizon);
    } else {
      var base := Expire(ledger, now);
      ExpireKeepsSound(ledger, clock, now);
      ExpireIsFresh(ledger, now);
      StartsWithExpiry(ledger, quotas, Some(deadline), now);
      ValidAfterExpiry(ledger, base, quotas, Some(deadline), now);
      EachOpens(base, quotas, Some(deadline), now);
      var (after, granted, fine) := ReserveEach(base, quotas, Some(deadline), now);
      GrantedLeaseStartsInStep(base, after, remote, granted, reservations, deadline, horizon);
    }
  }

  // ---------- rolling back among other callers ----------

  lemma InitialTotal(reservations: seq<QuotaAmount>, trigger: Trigger)
    requires TotalFor(InitialConsumptions(reservations), ResourceOf(trigger)).Some? && !trigger.resource.Other?
    ensures TotalFor(InitialConsumptions(reservations), ResourceOf(trigger)) == Some(InitialConsumedTotal(trigger))
  {
    var i := TotalFound(InitialConsumptions(reservations), ResourceOf(trigger));
  }

  /** What every lease of a refused call is asked. */
  function Abandonment(reservations: seq<QuotaAmount>, horizon: nat): Job {
    var initial := InitialConsumptions(reservations);
    Job(FinishRequest, reservations, initial, initial, 0, horizon)
  }

  /** The leases of a refused call are abandoned one by one, each at its own time and with anybody else using
      the counter in between: none refuses, and each is settled with the total it started from. */
  lemma RollBackAmongOthers(
      ledger: Ledger, clock: nat, granted: seq<Quota>, reservations: seq<QuotaAmount>, visits: seq<Visit>,
      horizon: nat)
    requires Filed(ledger) && |visits| == |granted|
    requires InStep(ledger, Client(InitialConsumptions(reservations), 0, false), reservations, LocalBackends(granted),
               horizon)
    requires PossibleVisits(ledger, clock, LocalBackends(granted), Abandonment(reservations, horizon), visits)
    requires forall quota :: quota in granted ==> !quota.trigger.resource.Other?
    ensures var (after, r) := SendAround(ledger, LocalBackends(granted), Abandonment(reservations, horizon), visits);
            && r.Ok?
            && forall quota :: quota in granted ==>
                 var standing := StandingOf(after, quota.id);
                 standing.Done? && standing.lease.consumedTotal == InitialConsumedTotal(quota.trigger)
  {
    var backends, job := LocalBackends(granted), Abandonment(reservations, horizon);
    SendEvery(ledger, clock, backends, job, visits);
    var after := SendAround(ledger, backends, job, visits).0;
    forall quota | quota in granted
      ensures var standing := StandingOf(after, quota.id);
              standing.Done? && standing.lease.consumedTotal == InitialConsumedTotal(quota.trigger)
    {
      var i :| 0 <= i < |granted| && granted[i] == quota;
      assert backends[i] in backends && Reached(after, backends[i], job);
      InitialTotal(reservations, quota.trigger);
    }
  }

  // ---------- the call itself ----------

  lemma ReserveUsesOneId(before: Ledger, clock: nat, quota: Quota, deadline: Option<nat>, now: nat)
    requires Sound(before, clock) && clock <= now
    ensures var after := Reserve(before, quota.trigger, quota.amount, deadline, quota.id, now).0;
            after.leases.Keys + after.retired.Keys <= before.leases.Keys + before.retired.Keys + {quota.id}
  {
    ExpireKeepsSound(before, clock, now);
    ReserveFrame(before, quota.trigger, quota.amount, deadline, quota.id, now);
  }

  lemma StillAdmissible(start: Ledger, ledger: Ledger, quotas: seq<Quota>, i: nat, deadline: Option<nat>, now: nat)
    requires ValidRequest(start, quotas, deadline, now) && i < |quotas|
    requires ledger.leases.Keys + ledger.retired.Keys <= start.leases.Keys + start.retired.Keys + OpenedIds(quotas[..i])
    ensures Admissible(ledger, quotas[i].amount, deadline, quotas[i].id, now)
    ensures OpenedIds(quotas[..i + 1]) == OpenedIds(quotas[..i]) + {quotas[i].id}
  {
    assert quotas[i] in quotas;
    assert quotas[..i + 1] == quotas[..i] + [quotas[i]];
    OpenedIdsGrow(quotas[..i], quotas[i]);
    forall id | id in OpenedIds(quotas[..i])
      ensures id != quotas[i].id
    {
      var j :| 0 <= j < i && quotas[..i][j].id == id;
      assert quotas[j].id != quotas[i].id;
    }
    assert quotas[i].id !in ledger.leases.Keys + ledger.retired.Keys;
  }

  /** Once a quota is refused the rest is not asked for. */
  lemma {:induction false} RefusedStays(ledger: Ledger, quotas: seq<Quota>, i: nat, deadline: Option<nat>, now: nat)
    requires i <= |quotas| && !ReserveEach(ledger, quotas[..i], deadline, now).2
    ensures ReserveEach(ledger, quotas, deadline, now) == ReserveEach(ledger, quotas[..i], deadline, now)
    decreases |quotas| - i
  {
    if i < |quotas| {
      assert quotas[..i + 1][..i] == quotas[..i];
      RefusedStays(ledger, quotas, i + 1, deadline, now);
    } else {
      assert quotas[..i] == quotas;
    }
  }

  /** One more quota of a call that has not been refused yet. */
  lemma ReservesNext(start: Ledger, quotas: seq<Quota>, i: nat, deadline: Option<nat>, now: nat)
    requires i < |quotas| && ReserveEach(start, quotas[..i], deadline, now).2
    ensures
      var (before, granted, fine) := ReserveEach(start, quotas[..i], deadline, now);
      var (after, outcome) := Reserve(before, quotas[i].trigger, quotas[i].amount, deadline, quotas[i].id, now);
      ReserveEach(start, quotas[..i + 1], deadline, now)
      == (after, if outcome.Reserved? then granted + [quotas[i]] else granted,
          outcome.Reserved? || outcome.NotConfigured?)
  {
    assert quotas[..i + 1][..i] == quotas[..i];
  }

  method RollBackReservations(counter: LocalQuotaCounter, granted: seq<Quota>, now: nat)
    requires counter.Valid() && counter.clock <= now
    modifies counter
    ensures counter.Valid() && counter.clock <= now
    ensures counter.View() == RollBack(old(counter.View()), granted, now)
  {
    ghost var start := counter.View();
    for i := 0 to |granted|
      invariant counter.Valid() && counter.clock <= now
      invariant counter.View() == RollBack(start, granted[..i], now)
    {
      assert granted[..i + 1][..i] == granted[..i];
      var ignored := counter.FinishLease(granted[i].id, InitialConsumedTotal(granted[i].trigger), 1, now);
    }
    assert granted[..|granted|] == granted;
  }

  /** The local part of the call up to the first refusal. */
  method ReserveUntilRefused(counter: LocalQuotaCounter, quotas: seq<Quota>, deadline: Option<nat>, now: nat)
    returns (backends: seq<Quota>, fine: bool)
    requires counter.Valid() && counter.clock <= now
    requires ValidRequest(counter.View(), quotas, deadline, now)
    modifies counter
    ensures counter.Valid() && counter.clock <= now
    ensures (counter.View(), backends, fine) == ReserveEach(old(counter.View()), quotas, deadline, now)
  {
    ghost var start := counter.View();
    backends := [];
    assert OpenedIds(quotas[..0]) == {};
    for i := 0 to |quotas|
      invariant counter.Valid() && counter.clock <= now
      invariant (counter.View(), backends, true) == ReserveEach(start, quotas[..i], deadline, now)
      invariant counter.leases.Keys + counter.retired.Keys <= start.leases.Keys + start.retired.Keys
          + OpenedIds(quotas[..i])
    {
      var quota := quotas[i];
      ReservesNext(start, quotas, i, deadline, now);
      StillAdmissible(start, counter.View(), quotas, i, deadline, now);
      ReserveUsesOneId(counter.View(), counter.clock, quota, deadline, now);
      var outcome := counter.Reserve(quota.trigger, quota.amount, deadline, quota.id, now);
      if outcome == Reserved {
        backends := backends + [quota];
      } else if outcome != NotConfigured {
        RefusedStays(start, quotas, i + 1, deadline, now);
        return backends, false;
      }
    }
    assert quotas[..|quotas|] == quotas;
    fine := true;
  }

  method ReserveQuotas(counter: LocalQuotaCounter, quotas: seq<Quota>, deadline: Option<nat>, now: nat)
    returns (granted: Option<seq<Quota>>)
    requires counter.Valid() && counter.clock <= now
    requires ValidRequest(counter.View(), quotas, deadline, now)
    modifies counter
    ensures counter.Valid() && counter.clock <= now
    ensures (counter.View(), granted) == ReserveAll(old(counter.View()), quotas, deadline, now)
  {
    var backends, fine := ReserveUntilRefused(counter, quotas, deadline, now);
    if !fine {
      RollBackReservations(counter, backends, now);
      return None;
    }
    granted := Some(backends);
  }
}
