/** What a ledger says about one lease, and how a request to the counter moves it: the lease asked
    about moves by the rules of the request, every other lease stays where it is. */
module LeaseStandings {
  import opened QuotaTypes
  import opened QuotaLedger
  import opened LedgerRuns
  import opened LeaseRetries

  /** Live, or settled with its record still kept; otherwise nothing more is known of the lease. */
  datatype Standing =
    | Open(lease: LocalLease)
    | Done(lease: LocalLease, record: CompletedLease)
    | Unknown

  ghost function StandingOf(ledger: Ledger, id: LeaseId): Standing {
    if id in ledger.leases then Open(ledger.leases[id])
    else if id in ledger.retired && id in ledger.completed then Done(ledger.retired[id], ledger.completed[id])
    else Unknown
  }

  /** Neither the lease nor its record lapses by `time`. */
  predicate Outlasts(standing: Standing, time: nat) {
    match standing
    case Open(lease) => lease.expiresAt > time
    case Done(_, record) => record.expiresAt > time
    case Unknown => false
  }

  /** A lease is live or settled, not both, and a record belongs to a settled lease. */
  ghost predicate Filed(ledger: Ledger) {
    ledger.leases.Keys !! ledger.retired.Keys && ledger.completed.Keys <= ledger.retired.Keys
  }

  // ---------- other leases ----------

  /** Every lease but `id` that outlasts `now` stands in `after` as it did in `before`. */
  ghost predicate Spares(before: Ledger, after: Ledger, id: LeaseId, now: nat) {
    forall other :: other != id && Outlasts(StandingOf(before, other), now) ==>
      StandingOf(after, other) == StandingOf(before, other)
  }

  lemma ExpireSpares(ledger: Ledger, now: nat, id: LeaseId)
    requires Filed(ledger) && Outlasts(StandingOf(ledger, id), now)
    ensures StandingOf(Expire(ledger, now), id) == StandingOf(ledger, id)
  {
  }

  lemma ExpireSparesAll(ledger: Ledger, now: nat, id: LeaseId)
    requires Filed(ledger)
    ensures Spares(ledger, Expire(ledger, now), id, now)
  {
    forall other | other != id && Outlasts(StandingOf(ledger, other), now)
      ensures StandingOf(Expire(ledger, now), other) == StandingOf(ledger, other)
    {
      ExpireSpares(ledger, now, other);
    }
  }

  /** `after` differs from `expired`, as to leases, settlements and records, at most in `id`. */
  ghost predicate OnlyAt(expired: Ledger, after: Ledger, id: LeaseId) {
    && after.leases - {id} == expired.leases - {id}
    && after.retired - {id} == expired.retired - {id}
    && after.completed - {id} == expired.completed - {id}
  }

  lemma OnlyAtSpares(before: Ledger, expired: Ledger, after: Ledger, id: LeaseId, now: nat)
    requires Spares(before, expired, id, now) && OnlyAt(expired, after, id)
    ensures Spares(before, after, id, now)
  {
    forall other | other != id && Outlasts(StandingOf(before, other), now)
      ensures StandingOf(after, other) == StandingOf(expired, other)
    {
      SameAt(expired.leases, after.leases, id, other);
      SameAt(expired.retired, after.retired, id, other);
      SameAt(expired.completed, after.completed, id, other);
    }
  }

  lemma SameAt<V>(a: map<LeaseId, V>, b: map<LeaseId, V>, id: LeaseId, other: LeaseId)
    requires a - {id} == b - {id} && other != id
    ensures other in a <==> other in b
    ensures other in a ==> a[other] == b[other]
  {
    assert other in a <==> other in a - {id};
    assert other in b <==> other in b - {id};
    if other in a {
      assert (a - {id})[other] == (b - {id})[other];
    }
  }

  lemma ReserveSpares(
      ledger: Ledger, trigger: Trigger, amount: nat, deadline: Option<nat>, id: LeaseId, now: nat)
    requires Filed(ledger)
    ensures Spares(ledger, Reserve(ledger, trigger, amount, deadline, id, now).0, id, now)
  {
    ExpireSparesAll(ledger, now, id);
    ReserveFrame(ledger, trigger, amount, deadline, id, now);
    OnlyAtSpares(ledger, Expire(ledger, now), Reserve(ledger, trigger, amount, deadline, id, now).0, id, now);
  }

  lemma UpdateSpares(ledger: Ledger, id: LeaseId, consumedTotal: nat, sequence: nat, now: nat)
    requires Filed(ledger)
    ensures Spares(ledger, Update(ledger, id, consumedTotal, sequence, now).0, id, now)
  {
    ExpireSparesAll(ledger, now, id);
    UpdateFrame(ledger, id, consumedTotal, sequence, now);
    OnlyAtSpares(ledger, Expire(ledger, now), Update(ledger, id, consumedTotal, sequence, now).0, id, now);
  }

  /** One lease moved from the live ones to the settled ones. */
  ghost predicate MovesOver(expired: Ledger, after: Ledger, id: LeaseId) {
    && id in after.retired && id in after.completed
    && after.leases == expired.leases - {id}
    && after.retired == expired.retired[id := after.retired[id]]
    && after.completed == expired.completed[id := after.completed[id]]
  }

  lemma MovesOnlyAt(expired: Ledger, after: Ledger, id: LeaseId)
    requires after == expired || MovesOver(expired, after, id)
    ensures OnlyAt(expired, after, id)
  {
  }

  lemma FinishSpares(ledger: Ledger, id: LeaseId, consumedTotal: nat, sequence: nat, now: nat)
    requires Filed(ledger)
    ensures Spares(ledger, Finish(ledger, id, consumedTotal, sequence, now).0, id, now)
  {
    ExpireSparesAll(ledger, now, id);
    FinishFrame(ledger, id, consumedTotal, sequence, now);
    MovesOnlyAt(Expire(ledger, now), Finish(ledger, id, consumedTotal, sequence, now).0, id);
    OnlyAtSpares(ledger, Expire(ledger, now), Finish(ledger, id, consumedTotal, sequence, now).0, id, now);
  }

  /** A step about one lease leaves the standings of all others alone. */
  lemma StepSpares(ledger: Ledger, step: Step)
    requires Filed(ledger)
    ensures Spares(ledger, After(ledger, step), step.event.id, step.now)
  {
    match step.event
    case Reserving(trigger, amount, deadline, id) =>
      ReserveSpares(ledger, trigger, amount, deadline, id, step.now);
    case Updating(id, consumedTotal, sequence) =>
      UpdateSpares(ledger, id, consumedTotal, sequence, step.now);
    case Finishing(id, consumedTotal, sequence) =>
      FinishSpares(ledger, id, consumedTotal, sequence, step.now);
  }

  // ---------- filing ----------

  lemma ExpireKeepsFiled(ledger: Ledger, now: nat)
    requires Filed(ledger)
    ensures Filed(Expire(ledger, now))
    ensures Expire(ledger, now).leases.Keys <= ledger.leases.Keys
    ensures Expire(ledger, now).retired.Keys <= ledger.leases.Keys + ledger.retired.Keys
  {
  }

  lemma StepKeepsFiled(ledger: Ledger, clock: nat, step: Step)
    requires Filed(ledger) && Possible(ledger, clock, step)
    ensures Filed(After(ledger, step))
  {
    ExpireKeepsFiled(ledger, step.now);
    match step.event
    case Reserving(trigger, amount, deadline, id) => ReserveFrame(ledger, trigger, amount, deadline, id, step.now);
    case Updating(id, consumedTotal, sequence) => UpdateFrame(ledger, id, consumedTotal, sequence, step.now);
    case Finishing(id, consumedTotal, sequence) => FinishFrame(ledger, id, consumedTotal, sequence, step.now);
  }

  lemma {:induction false} RunKeepsFiled(start: Ledger, clock: nat, steps: seq<Step>)
    requires Filed(start) && PossibleRun(start, clock, steps)
    ensures Filed(Run(start, steps))
  {
    if steps != [] {
      var before := steps[..|steps| - 1];
      RunKeepsFiled(start, clock, before);
      StepKeepsFiled(Run(start, before), Clock(clock, before), steps[|steps| - 1]);
    }
  }

  /** Steps about other leases, up to `horizon`. */
  ghost predicate Elsewhere(steps: seq<Step>, ids: set<LeaseId>, horizon: nat) {
    forall step :: step in steps ==> step.now <= horizon && step.event.id !in ids
  }

  lemma {:induction false} RunSpares(
      start: Ledger, clock: nat, steps: seq<Step>, ids: set<LeaseId>, horizon: nat, id: LeaseId)
    requires Filed(start) && PossibleRun(start, clock, steps) && Elsewhere(steps, ids, horizon)
    requires id in ids && Outlasts(StandingOf(start, id), horizon)
    ensures StandingOf(Run(start, steps), id) == StandingOf(start, id)
  {
    if steps != [] {
      var before, last := steps[..|steps| - 1], steps[|steps| - 1];
      assert last in steps;
      RunSpares(start, clock, before, ids, horizon, id);
      RunKeepsFiled(start, clock, before);
      StepSpares(Run(start, before), last);
    }
  }

  // ---------- the lease asked about ----------

  /** An unexpired lease that a valid report reaches reports the new total. */
  lemma UpdateTakes(ledger: Ledger, id: LeaseId, consumedTotal: nat, sequence: nat, now: nat)
    requires var standing := StandingOf(ledger, id);
             standing.Open? && Outlasts(standing, now) && Validate(standing.lease, consumedTotal, sequence).Ok?
    ensures var (after, r) := Update(ledger, id, consumedTotal, sequence, now);
            r.Ok? && StandingOf(after, id) == Open(Reported(ledger.leases[id], consumedTotal, sequence))
  {
    UpdateReports(ledger, now, id, ledger.leases[id], consumedTotal, sequence);
  }

  /** A repeated report is accepted and moves nothing. */
  lemma UpdateRepeats(ledger: Ledger, id: LeaseId, consumedTotal: nat, sequence: nat, now: nat)
    requires var standing := StandingOf(ledger, id);
             && standing.Open? && Outlasts(standing, now)
             && standing.lease.consumedTotal == consumedTotal && standing.lease.sequence == sequence
    ensures Update(ledger, id, consumedTotal, sequence, now) == (Expire(ledger, now), Ok(()))
    ensures StandingOf(Expire(ledger, now), id) == StandingOf(ledger, id)
  {
    ExpireKeepsLive(ledger, now, id, ledger.leases[id]);
  }

  lemma FinishTakes(ledger: Ledger, id: LeaseId, consumedTotal: nat, sequence: nat, now: nat)
    requires Filed(ledger)
    requires var standing := StandingOf(ledger, id);
             standing.Open? && Outlasts(standing, now) && Validate(standing.lease, consumedTotal, sequence).Ok?
    ensures var (after, r) := Finish(ledger, id, consumedTotal, sequence, now);
            && r.Ok?
            && StandingOf(after, id)
               == Done(ledger.leases[id].(consumedTotal := consumedTotal),
                       CompletedLease(consumedTotal, sequence, now + RETENTION))
  {
    FinishOpen(ledger, id, consumedTotal, sequence, now);
  }

  /** Finishing an unexpired lease is settling it after the expired ones. */
  lemma FinishOpen(ledger: Ledger, id: LeaseId, consumedTotal: nat, sequence: nat, now: nat)
    requires Filed(ledger)
    requires id in ledger.leases && ledger.leases[id].expiresAt > now
    requires Validate(ledger.leases[id], consumedTotal, sequence).Ok?
    ensures id in Expire(ledger, now).leases && Expire(ledger, now).leases[id] == ledger.leases[id]
    ensures Finish(ledger, id, consumedTotal, sequence, now)
         == (Settle(Expire(ledger, now), id, consumedTotal, sequence, now), Ok(()))
  {
    ExpireKeepsLive(ledger, now, id, ledger.leases[id]);
    assert id !in ledger.completed;
  }

  lemma FinishRepeats(ledger: Ledger, id: LeaseId, consumedTotal: nat, sequence: nat, now: nat)
    requires Filed(ledger)
    requires var standing := StandingOf(ledger, id);
             && standing.Done? && Outlasts(standing, now)
             && standing.record.consumedTotal == consumedTotal && standing.record.sequence == sequence
    ensures Finish(ledger, id, consumedTotal, sequence, now) == (Expire(ledger, now), Ok(()))
    ensures StandingOf(Expire(ledger, now), id) == StandingOf(ledger, id)
  {
    ExpireSpares(ledger, now, id);
  }

  /** A settlement that does not carry the next sequence number is refused and changes nothing. */
  lemma FinishRefused(ledger: Ledger, id: LeaseId, consumedTotal: nat, sequence: nat, now: nat)
    requires Filed(ledger)
    requires var standing := StandingOf(ledger, id);
             standing.Open? && Outlasts(standing, now) && Validate(standing.lease, consumedTotal, sequence).Err?
    ensures Finish(ledger, id, consumedTotal, sequence, now).0 == Expire(ledger, now)
    ensures StandingOf(Expire(ledger, now), id) == StandingOf(ledger, id)
  {
    ExpireKeepsLive(ledger, now, id, ledger.leases[id]);
    assert id !in ledger.completed;
  }
}
