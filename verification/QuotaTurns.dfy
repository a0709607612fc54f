/** The reservation of several resources with anybody else using the counter before each of them, and each
    made at its own time. */
module QuotaTurns {
  import opened QuotaTypes
  import opened QuotaLedger
  import opened ReserveLaws
  import opened LedgerRuns
  import opened LeaseStandings
  import opened QuotaReservation
  import opened LeaseClient
  import opened LeaseLaws
  import opened QuotaApi

  /** What others do before a quota is reserved, when it is, and when its lease is to expire. */
  datatype Moment = Moment(between: seq<Step>, now: nat, deadline: Option<nat>)

  /** Reserves in order up to the first refusal, like `ReserveEach`, among other callers. */
  ghost function ReserveAround(ledger: Ledger, quotas: seq<Quota>, moments: seq<Moment>): (Ledger, seq<Quota>, bool)
    requires |moments| == |quotas|
  {
    if quotas == [] then (ledger, [], true)
    else
      var n := |quotas| - 1;
      var (before, granted, fine) := ReserveAround(ledger, quotas[..n], moments[..n]);
      if !fine then (before, granted, false)
      else
        var (after, outcome) := ReserveTurn(before, quotas[n], moments[n]);
        (after, if outcome.Reserved? then granted + [quotas[n]] else granted,
         outcome.Reserved? || outcome.NotConfigured?)
  }

  ghost function ReserveTurn(ledger: Ledger, quota: Quota, moment: Moment): (Ledger, ReserveOutcome) {
    Reserve(Run(ledger, moment.between), quota.trigger, quota.amount, moment.deadline, quota.id, moment.now)
  }

  function MomentBefore(clock: nat, moments: seq<Moment>, n: nat): nat
    requires n <= |moments|
  {
    if n == 0 then clock else moments[n - 1].now
  }

  /** Time does not go back, others keep away from the leases of the call, and those live beyond `horizon`. */
  ghost predicate PossibleMoments(
      ledger: Ledger, clock: nat, quotas: seq<Quota>, moments: seq<Moment>, horizon: nat)
    requires |moments| == |quotas|
  {
    forall n :: 0 <= n < |moments| ==>
      && PossibleRun(ReserveAround(ledger, quotas[..n], moments[..n]).0, MomentBefore(clock, moments, n),
           moments[n].between)
      && Clock(MomentBefore(clock, moments, n), moments[n].between) <= moments[n].now <= horizon
      && Elsewhere(moments[n].between, OpenedIds(quotas), horizon)
      && (moments[n].deadline.Some? ==> horizon < moments[n].deadline.value <= moments[n].now + MAX_TTL)
  }

  // ---------- lease ids nobody has used ----------

  ghost predicate Unused(ledger: Ledger, id: LeaseId) {
    id !in ledger.leases && id !in ledger.retired
  }

  lemma StepKeepsUnused(ledger: Ledger, step: Step, id: LeaseId)
    requires Unused(ledger, id) && step.event.id != id
    ensures Unused(After(ledger, step), id)
  {
    match step.event
    case Reserving(trigger, amount, deadline, other) =>
      ReserveFrame(ledger, trigger, amount, deadline, other, step.now);
    case Updating(other, consumedTotal, sequence) =>
      UpdateFrame(ledger, other, consumedTotal, sequence, step.now);
    case Finishing(other, consumedTotal, sequence) =>
      FinishFrame(ledger, other, consumedTotal, sequence, step.now);
  }

  lemma {:induction false} RunKeepsUnused(start: Ledger, steps: seq<Step>, ids: set<LeaseId>, horizon: nat, id: LeaseId)
    requires Unused(start, id) && Elsewhere(steps, ids, horizon) && id in ids
    ensures Unused(Run(start, steps), id)
  {
    if steps != [] {
      var before, last := steps[..|steps| - 1], steps[|steps| - 1];
      assert last in steps;
      RunKeepsUnused(start, before, ids, horizon, id);
      StepKeepsUnused(Run(start, before), last, id);
    }
  }

  // ---------- one quota after the other ----------

  /** The lease of a quota is live as it was opened. */
  ghost predicate Stands(ledger: Ledger, quota: Quota, horizon: nat) {
    && quota.id in ledger.leases && ledger.leases[quota.id].expiresAt > horizon
    && NewLease(ledger.leases[quota.id], quota, Some(ledger.leases[quota.id].expiresAt))
  }

  ghost predicate AllStand(ledger: Ledger, granted: seq<Quota>, horizon: nat) {
    Filed(ledger) && DistinctIds(granted) && forall quota :: quota in granted ==> Stands(ledger, quota, horizon)
  }

  /** The first `n` quotas have had their turn: those granted have their leases, the others come later. */
  ghost predicate Served(ledger: Ledger, quotas: seq<Quota>, n: nat, granted: seq<Quota>, horizon: nat) {
    && n <= |quotas| && AllStand(ledger, granted, horizon)
    && (forall quota :: quota in granted ==> quota in quotas[..n])
    && (forall i :: n <= i < |quotas| ==> Unused(ledger, quotas[i].id))
  }

  lemma InOpened(quotas: seq<Quota>, i: nat)
    requires i < |quotas|
    ensures quotas[i].id in OpenedIds(quotas)
  {
  }

  lemma OthersKeepServed(
      ledger: Ledger, clock: nat, after: Ledger, between: seq<Step>, quotas: seq<Quota>, n: nat, granted: seq<Quota>,
      horizon: nat)
    requires Served(ledger, quotas, n, granted, horizon) && PossibleRun(ledger, clock, between)
    requires Elsewhere(between, OpenedIds(quotas), horizon) && after == Run(ledger, between)
    ensures Served(after, quotas, n, granted, horizon)
  {
    RunKeepsFiled(ledger, clock, between);
    forall quota | quota in granted
      ensures Stands(after, quota, horizon)
    {
      var i :| 0 <= i < n && quotas[..n][i] == quota;
      InOpened(quotas, i);
      RunSpares(ledger, clock, between, OpenedIds(quotas), horizon, quota.id);
      assert StandingOf(after, quota.id) == Open(ledger.leases[quota.id]);
    }
    forall i | n <= i < |quotas|
      ensures Unused(after, quotas[i].id)
    {
      InOpened(quotas, i);
      RunKeepsUnused(ledger, between, OpenedIds(quotas), horizon, quotas[i].id);
    }
  }

  lemma OwnLease(ledger: Ledger, quota: Quota, moment: Moment, after: Ledger, outcome: ReserveOutcome, horizon: nat)
    requires (after, outcome)
          == Reserve(ledger, quota.trigger, quota.amount, moment.deadline, quota.id, moment.now)
    requires moment.deadline.Some? ==> horizon < moment.deadline.value
    ensures outcome.Reserved? ==> Stands(after, quota, horizon)
  {
    var expired := Expire(ledger, moment.now);
    if moment.deadline.Some? && ReservesWindows(quota.trigger) {
      OpensNewLease(expired, quota, moment.deadline.value, moment.now);
    } else if moment.deadline.Some? && quota.trigger.resource.Concurrency? {
      OccupiesNewLease(expired, quota, moment.deadline.value);
    }
  }

  function OwnStep(quota: Quota, moment: Moment): Step {
    Step(moment.now, Reserving(quota.trigger, quota.amount, moment.deadline, quota.id))
  }

  lemma OwnStepReserves(ledger: Ledger, quota: Quota, moment: Moment)
    ensures After(ledger, OwnStep(quota, moment))
         == Reserve(ledger, quota.trigger, quota.amount, moment.deadline, quota.id, moment.now).0
  {
  }

  /** A step about another lease leaves the leases of the call standing. */
  lemma OthersStillStand(
      ledger: Ledger, after: Ledger, step: Step, quotas: seq<Quota>, n: nat, granted: seq<Quota>, horizon: nat)
    requires AllStand(ledger, granted, horizon) && Filed(after) && n < |quotas| && DistinctIds(quotas)
    requires forall quota :: quota in granted ==> quota in quotas[..n]
    requires step.event.id == quotas[n].id && step.now <= horizon && Spares(ledger, after, step.event.id, step.now)
    ensures AllStand(after, granted, horizon) && forall quota :: quota in granted ==> quota.id != quotas[n].id
  {
    forall other | other in granted
      ensures Stands(after, other, horizon) && other.id != quotas[n].id
    {
      var i :| 0 <= i < n && quotas[..n][i] == other;
      assert quotas[i].id != quotas[n].id;
      assert StandingOf(ledger, other.id) == Open(ledger.leases[other.id]);
      assert StandingOf(after, other.id) == Open(ledger.leases[other.id]);
    }
  }

  lemma StillUnused(ledger: Ledger, after: Ledger, step: Step, quotas: seq<Quota>, n: nat)
    requires n < |quotas| && DistinctIds(quotas) && step.event.id == quotas[n].id && after == After(ledger, step)
    requires forall i :: n <= i < |quotas| ==> Unused(ledger, quotas[i].id)
    ensures forall i :: n + 1 <= i < |quotas| ==> Unused(after, quotas[i].id)
  {
    forall i | n + 1 <= i < |quotas|
      ensures Unused(after, quotas[i].id)
    {
      StepKeepsUnused(ledger, step, quotas[i].id);
    }
  }

  lemma ServedNext(
      after: Ledger, reserved: bool, quotas: seq<Quota>, n: nat, granted: seq<Quota>, horizon: nat)
    requires n < |quotas| && AllStand(after, granted, horizon)
    requires forall quota :: quota in granted ==> quota in quotas[..n] && quota.id != quotas[n].id
    requires forall i :: n + 1 <= i < |quotas| ==> Unused(after, quotas[i].id)
    requires reserved ==> Stands(after, quotas[n], horizon)
    ensures Served(after, quotas, n + 1, if reserved then granted + [quotas[n]] else granted, horizon)
  {
    assert quotas[..n + 1] == quotas[..n] + [quotas[n]];
    forall i | 0 <= i < |granted|
      ensures granted[i].id != quotas[n].id
    {
      assert granted[i] in granted;
    }
  }

  /** Reserving one quota leaves the others of the call where they were. */
  lemma OwnTurnKeepsServed(
      ledger: Ledger, clock: nat, after: Ledger, outcome: ReserveOutcome, quotas: seq<Quota>, n: nat,
      granted: seq<Quota>, moment: Moment, horizon: nat)
    requires Served(ledger, quotas, n, granted, horizon) && n < |quotas| && DistinctIds(quotas)
    requires 0 < quotas[n].amount <= U32_MAX && clock <= moment.now <= horizon
    requires moment.deadline.Some? ==> horizon < moment.deadline.value <= moment.now + MAX_TTL
    requires (after, outcome)
          == Reserve(ledger, quotas[n].trigger, quotas[n].amount, moment.deadline, quotas[n].id, moment.now)
    ensures Served(after, quotas, n + 1, if outcome.Reserved? then granted + [quotas[n]] else granted, horizon)
  {
    var step := OwnStep(quotas[n], moment);
    OwnStepReserves(ledger, quotas[n], moment);
    StepKeepsFiled(ledger, clock, step);
    StepSpares(ledger, step);
    OwnLease(ledger, quotas[n], moment, after, outcome, horizon);
    OthersStillStand(ledger, after, step, quotas, n, granted, horizon);
    StillUnused(ledger, after, step, quotas, n);
    ServedNext(after, outcome.Reserved?, quotas, n, granted, horizon);
  }

  lemma NextAround(ledger: Ledger, quotas: seq<Quota>, moments: seq<Moment>, n: nat)
    requires n < |quotas| == |moments|
    ensures
      var (before, granted, fine) := ReserveAround(ledger, quotas[..n], moments[..n]);
      var (after, outcome) := ReserveTurn(before, quotas[n], moments[n]);
      ReserveAround(ledger, quotas[..n + 1], moments[..n + 1])
      == if !fine then (before, granted, false)
         else (after, if outcome.Reserved? then granted + [quotas[n]] else granted,
               outcome.Reserved? || outcome.NotConfigured?)
  {
    assert quotas[..n + 1][..n] == quotas[..n] && moments[..n + 1][..n] == moments[..n];
  }

  ghost predicate ValidQuotas(ledger: Ledger, quotas: seq<Quota>) {
    && DistinctIds(quotas)
    && forall i :: 0 <= i < |quotas| ==> 0 < quotas[i].amount <= U32_MAX && Unused(ledger, quotas[i].id)
  }

  /** What the first `n` turns leave: refused or not, the leases granted so far are live as they were opened. */
  ghost predicate Turned(result: (Ledger, seq<Quota>, bool), quotas: seq<Quota>, n: nat, horizon: nat) {
    && AllStand(result.0, result.1, horizon)
    && (forall quota :: quota in result.1 ==> quota in quotas)
    && (result.2 ==> Served(result.0, quotas, n, result.1, horizon))
  }

  lemma ServedIsTurned(ledger: Ledger, granted: seq<Quota>, fine: bool, quotas: seq<Quota>, n: nat, horizon: nat)
    requires Served(ledger, quotas, n, granted, horizon)
    ensures Turned((ledger, granted, fine), quotas, n, horizon)
  {
  }

  lemma TakesTurn(
      before: Ledger, clock: nat, quotas: seq<Quota>, n: nat, granted: seq<Quota>, moment: Moment, horizon: nat)
    requires Served(before, quotas, n, granted, horizon) && n < |quotas| && DistinctIds(quotas)
    requires 0 < quotas[n].amount <= U32_MAX && PossibleRun(before, clock, moment.between)
    requires Clock(clock, moment.between) <= moment.now <= horizon
    requires Elsewhere(moment.between, OpenedIds(quotas), horizon)
    requires moment.deadline.Some? ==> horizon < moment.deadline.value <= moment.now + MAX_TTL
    ensures var (after, outcome) := ReserveTurn(before, quotas[n], moment);
            Served(after, quotas, n + 1, if outcome.Reserved? then granted + [quotas[n]] else granted, horizon)
  {
    var ledger := Run(before, moment.between);
    OthersKeepServed(before, clock, ledger, moment.between, quotas, n, granted, horizon);
    var (after, outcome) := ReserveTurn(before, quotas[n], moment);
    OwnTurnKeepsServed(ledger, Clock(clock, moment.between), after, outcome, quotas, n, granted, moment, horizon);
  }

  lemma {:induction false} TurnsKeep(
      ledger: Ledger, clock: nat, quotas: seq<Quota>, moments: seq<Moment>, horizon: nat, n: nat)
    requires Filed(ledger) && ValidQuotas(ledger, quotas) && n <= |quotas| == |moments|
    requires PossibleMoments(ledger, clock, quotas, moments, horizon)
    ensures Turned(ReserveAround(ledger, quotas[..n], moments[..n]), quotas, n, horizon)
  {
    if n > 0 {
      var last := n - 1;
      TurnsKeep(ledger, clock, quotas, moments, horizon, last);
      NextAround(ledger, quotas, moments, last);
      var (before, granted, fine) := ReserveAround(ledger, quotas[..last], moments[..last]);
      if fine {
        TakesTurn(before, MomentBefore(clock, moments, last), quotas, last, granted, moments[last], horizon);
        var (after, outcome) := ReserveTurn(before, quotas[last], moments[last]);
        ServedIsTurned(after, if outcome.Reserved? then granted + [quotas[last]] else granted,
          outcome.Reserved? || outcome.NotConfigured?, quotas, n, horizon);
      }
    }
  }

  // ---------- the whole call ----------

  lemma StandingIsInStep(
      ledger: Ledger, remote: bool, granted: seq<Quota>, reservations: seq<QuotaAmount>, horizon: nat)
    requires AllStand(ledger, granted, horizon) && ValidAmounts(reservations) && Requested(reservations, granted)
    ensures InStep(ledger, Client(InitialConsumptions(reservations), 0, false), reservations,
              BackendsOf(remote, granted), horizon)
  {
    InitialWithin(reservations);
    DistinctIdsDistinctBackends(remote, granted);
    forall b | b in BackendsOf(remote, granted) && b.Local?
      ensures Tracks(ledger, b, reservations, InitialConsumptions(reservations), 0, horizon)
    {
      var i :| 0 <= i < |granted| && b == LocalBackends(granted)[i];
      assert granted[i] in granted;
      NewLeaseTracks(ledger, granted[i], reservations, InitialConsumptions(reservations),
        ledger.leases[granted[i].id].expiresAt, horizon);
    }
  }

  /** Reserving several resources among other callers, each at its own time and under any rules: granted or
      refused at any point, the leases opened so far are in step with the counter. */
  lemma ReserveAmongOthers(
      ledger: Ledger, clock: nat, remote: bool, quotas: seq<Quota>, moments: seq<Moment>,
      reservations: seq<QuotaAmount>, horizon: nat)
    requires Filed(ledger) && ValidQuotas(ledger, quotas) && |moments| == |quotas|
    requires PossibleMoments(ledger, clock, quotas, moments, horizon)
    requires ValidAmounts(reservations) && Requested(reservations, quotas)
    ensures var (after, granted, fine) := ReserveAround(ledger, quotas, moments);
            && Filed(after) && (forall quota :: quota in granted ==> quota in quotas)
            && InStep(after, Client(InitialConsumptions(reservations), 0, false), reservations,
                 BackendsOf(remote, granted), horizon)
  {
    TurnsKeep(ledger, clock, quotas, moments, horizon, |quotas|);
    assert quotas[..|quotas|] == quotas && moments[..|moments|] == moments;
    var (after, granted, fine) := ReserveAround(ledger, quotas, moments);
    StandingIsInStep(after, remote, granted, reservations, horizon);
  }

  /** A refused call among other callers: whatever happened since, the rollback settles every lease the call
      opened with the total it started from. */
  lemma RefusedAmongOthers(
      ledger: Ledger, clock: nat, quotas: seq<Quota>, moments: seq<Moment>, reservations: seq<QuotaAmount>,
      start: nat, visits: seq<Visit>, horizon: nat)
    requires Filed(ledger) && ValidQuotas(ledger, quotas) && |moments| == |quotas|
    requires PossibleMoments(ledger, clock, quotas, moments, horizon)
    requires ValidAmounts(reservations) && Requested(reservations, quotas)
    requires var (after, granted, fine) := ReserveAround(ledger, quotas, moments);
             && |visits| == |granted|
             && PossibleVisits(after, start, LocalBackends(granted), Abandonment(reservations, horizon), visits)
    ensures var (after, granted, fine) := ReserveAround(ledger, quotas, moments);
            var (rolled, r) := SendAround(after, LocalBackends(granted), Abandonment(reservations, horizon), visits);
            && r.Ok?
            && forall quota :: quota in granted ==>
                 var standing := StandingOf(rolled, quota.id);
                 standing.Done? && standing.lease.consumedTotal == InitialConsumedTotal(quota.trigger)
  {
    ReserveAmongOthers(ledger, clock, false, quotas, moments, reservations, horizon);
    var (after, granted, fine) := ReserveAround(ledger, quotas, moments);
    assert BackendsOf(false, granted) == LocalBackends(granted);
    RollBackAmongOthers(after, start, granted, reservations, visits, horizon);
  }
}
