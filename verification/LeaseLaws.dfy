/** The client and its backends stay in step: what a request does to every backend, whoever else uses
    the counter meanwhile. */
module LeaseLaws {
  import opened QuotaTypes
  import opened QuotaLedger
  import opened LedgerLaws
  import opened LedgerRuns
  import opened LeaseStandings
  import opened LeaseClient

  /** Every local backend has a lease of its own. */
  predicate DistinctBackends(backends: seq<Backend>) {
    forall i, j :: 0 <= i < j < |backends| && backends[i].Local? && backends[j].Local? ==>
      backends[i].id != backends[j].id
  }

  function Ids(backends: seq<Backend>): set<LeaseId> {
    set i | 0 <= i < |backends| && backends[i].Local? :: backends[i].id
  }

  /** The lease is live with exactly these totals and this sequence number. */
  predicate TracksAt(
      standing: Standing, resource: QuotaResource, reservations: seq<QuotaAmount>, totals: seq<QuotaConsumption>,
      sequence: nat, horizon: nat) {
    && standing.Open? && standing.lease.sequence == sequence && standing.lease.expiresAt > horizon
    && standing.lease.consumedTotal <= standing.lease.reservedAmount
    && TotalFor(totals, resource) == Some(standing.lease.consumedTotal)
    && AmountFor(reservations, resource) == Some(standing.lease.reservedAmount)
  }

  /** The lease is settled with exactly these totals, and a retry is still recognised. */
  predicate ClosedAt(
      standing: Standing, resource: QuotaResource, totals: seq<QuotaConsumption>, sequence: nat, horizon: nat) {
    && standing.Done? && standing.record.sequence == sequence && standing.record.expiresAt > horizon
    && standing.record.consumedTotal == standing.lease.consumedTotal
    && TotalFor(totals, resource) == Some(standing.lease.consumedTotal)
  }

  ghost predicate Tracks(
      ledger: Ledger, backend: Backend, reservations: seq<QuotaAmount>, totals: seq<QuotaConsumption>, sequence: nat,
      horizon: nat) {
    backend.Local? ==>
      TracksAt(StandingOf(ledger, backend.id), backend.resource, reservations, totals, sequence, horizon)
  }

  ghost predicate Closed(
      ledger: Ledger, backend: Backend, totals: seq<QuotaConsumption>, sequence: nat, horizon: nat) {
    backend.Local? ==> ClosedAt(StandingOf(ledger, backend.id), backend.resource, totals, sequence, horizon)
  }

  predicate Within(reservations: seq<QuotaAmount>, consumptions: seq<QuotaConsumption>)
    requires |consumptions| == |reservations|
  {
    forall i :: 0 <= i < |reservations| ==> consumptions[i].consumedTotal <= reservations[i].amount
  }

  /** Client and backends agree on totals and sequence number, and no lease expires by `horizon`. */
  ghost predicate InStep(
      ledger: Ledger, client: Client, reservations: seq<QuotaAmount>, backends: seq<Backend>, horizon: nat) {
    && Matching(reservations, client.consumptions) && Within(reservations, client.consumptions)
    && DistinctBackends(backends) && !client.finished
    && forall backend :: backend in backends ==>
         Tracks(ledger, backend, reservations, client.consumptions, client.sequence, horizon)
  }

  /** Totals move forward and stay inside the reservations. */
  ghost predicate Advances(
      reservations: seq<QuotaAmount>, before: seq<QuotaConsumption>, next: seq<QuotaConsumption>) {
    forall resource: QuotaResource :: TotalFor(before, resource).Some? && AmountFor(reservations, resource).Some? ==>
      && TotalFor(next, resource).Some?
      && TotalFor(before, resource).value <= TotalFor(next, resource).value
      && (TotalFor(next, resource) == TotalFor(before, resource)
          || TotalFor(next, resource).value <= AmountFor(reservations, resource).value)
  }

  lemma AcceptedAdvances(reservations: seq<QuotaAmount>, current: seq<QuotaConsumption>, updates: seq<QuotaConsumption>)
    requires Matching(reservations, current) && Acceptable(reservations, current, updates)
    ensures Advances(reservations, current, Overlay(current, updates))
    ensures Matching(reservations, Overlay(current, updates))
    ensures Within(reservations, current) ==> Within(reservations, Overlay(current, updates))
  {
    forall i | 0 <= i < |reservations| && Within(reservations, current)
      ensures Overlay(current, updates)[i].consumedTotal <= reservations[i].amount
    {
      AmountOf(reservations, i);
      if TotalFor(updates, current[i].resource).Some? {
        var j := TotalFound(updates, current[i].resource);
        assert updates[j] in updates && InRange(reservations, current, updates[j]);
      }
    }
    forall resource: QuotaResource | TotalFor(current, resource).Some? && AmountFor(reservations, resource).Some?
      ensures TotalFor(Overlay(current, updates), resource).Some?
      ensures TotalFor(current, resource).value <= TotalFor(Overlay(current, updates), resource).value
      ensures TotalFor(Overlay(current, updates), resource) == TotalFor(current, resource)
              || TotalFor(Overlay(current, updates), resource).value <= AmountFor(reservations, resource).value
    {
      OverlayTotal(reservations, current, updates, resource);
      if TotalFor(updates, resource).Some? {
        var j := TotalFound(updates, resource);
        assert updates[j] in updates && InRange(reservations, current, updates[j]);
      }
    }
  }

  // ---------- one request to one backend ----------

  /** A request from a client whose last confirmed totals and sequence number are these, asking for
      `next`; no lease expires and no record of it lapses up to `horizon`. */
  datatype Job = Job(
    request: Request, reservations: seq<QuotaAmount>, confirmed: seq<QuotaConsumption>, next: seq<QuotaConsumption>,
    sequence: nat, horizon: nat)

  predicate Timely(job: Job, now: nat) {
    now <= job.horizon && (job.request.FinishRequest? ==> job.horizon < now + RETENTION)
  }

  ghost predicate WellPosed(job: Job) {
    job.sequence < U64_MAX && Advances(job.reservations, job.confirmed, job.next)
  }

  predicate ReachedAt(standing: Standing, resource: QuotaResource, job: Job) {
    if job.request.UpdateRequest?
    then TracksAt(standing, resource, job.reservations, job.next, job.sequence + 1, job.horizon)
    else ClosedAt(standing, resource, job.next, job.sequence + 1, job.horizon)
  }

  predicate ConfirmedAt(standing: Standing, resource: QuotaResource, job: Job) {
    TracksAt(standing, resource, job.reservations, job.confirmed, job.sequence, job.horizon)
  }

  /** The backend has taken the request: its lease reports, or was settled with, the next totals. */
  ghost predicate Reached(ledger: Ledger, backend: Backend, job: Job) {
    backend.Local? ==> ReachedAt(StandingOf(ledger, backend.id), backend.resource, job)
  }

  /** The backend still has the confirmed totals. */
  ghost predicate Confirmed(ledger: Ledger, backend: Backend, job: Job) {
    backend.Local? ==> ConfirmedAt(StandingOf(ledger, backend.id), backend.resource, job)
  }

  /** The backend still has the confirmed totals or has already taken the request. */
  ghost predicate Underway(ledger: Ledger, backend: Backend, job: Job) {
    Confirmed(ledger, backend, job) || Reached(ledger, backend, job)
  }

  /** A lease with the confirmed totals accepts the next ones. */
  lemma NextIsValid(standing: Standing, resource: QuotaResource, job: Job)
    requires WellPosed(job) && ConfirmedAt(standing, resource, job)
    ensures TotalFor(job.next, resource).Some?
    ensures Validate(standing.lease, TotalFor(job.next, resource).value, job.sequence + 1).Ok?
  {
  }

  /** What one backend of a request is asked. */
  ghost function Poll(ledger: Ledger, backend: Backend, job: Job, answer: bool, now: nat): (Ledger, Result<()>) {
    Query(ledger, backend, job.request, job.next, job.sequence + 1, answer, now)
  }

  lemma PollIsUpdate(ledger: Ledger, id: LeaseId, resource: QuotaResource, job: Job, answer: bool, now: nat, total: nat)
    requires job.request.UpdateRequest? && TotalFor(job.next, resource) == Some(total)
    ensures Poll(ledger, Local(id, resource), job, answer, now) == Update(ledger, id, total, job.sequence + 1, now)
  {
  }

  lemma PollIsFinish(ledger: Ledger, id: LeaseId, resource: QuotaResource, job: Job, answer: bool, now: nat, total: nat)
    requires job.request.FinishRequest? && TotalFor(job.next, resource) == Some(total)
    ensures Poll(ledger, Local(id, resource), job, answer, now) == Finish(ledger, id, total, job.sequence + 1, now)
  {
  }

  /** What a local backend answers to an update, by the standing of its lease alone. */
  lemma UpdateAnswers(ledger: Ledger, id: LeaseId, resource: QuotaResource, job: Job, answer: bool, now: nat)
    requires Filed(ledger) && Timely(job, now) && WellPosed(job) && job.request.UpdateRequest?
    requires Underway(ledger, Local(id, resource), job)
    ensures var (after, r) := Poll(ledger, Local(id, resource), job, answer, now);
            r.Ok? && Reached(after, Local(id, resource), job)
  {
    var total := TotalFor(job.next, resource).value;
    if Reached(ledger, Local(id, resource), job) {
      UpdateRepeats(ledger, id, total, job.sequence + 1, now);
    } else {
      UpdateTakes(ledger, id, total, job.sequence + 1, now);
    }
  }

  lemma FinishAnswersAgain(ledger: Ledger, id: LeaseId, resource: QuotaResource, job: Job, answer: bool, now: nat)
    requires Filed(ledger) && Timely(job, now) && job.request.FinishRequest?
    requires Reached(ledger, Local(id, resource), job)
    ensures var (after, r) := Poll(ledger, Local(id, resource), job, answer, now);
            r.Ok? && Reached(after, Local(id, resource), job)
  {
    FinishRepeats(ledger, id, TotalFor(job.next, resource).value, job.sequence + 1, now);
  }

  lemma FinishAnswers(ledger: Ledger, id: LeaseId, resource: QuotaResource, job: Job, answer: bool, now: nat)
    requires Filed(ledger) && Timely(job, now) && WellPosed(job) && job.request.FinishRequest?
    requires Confirmed(ledger, Local(id, resource), job)
    ensures var (after, r) := Poll(ledger, Local(id, resource), job, answer, now);
            r.Ok? && Reached(after, Local(id, resource), job)
  {
    NextIsValid(StandingOf(ledger, id), resource, job);
    FinishTakes(ledger, id, TotalFor(job.next, resource).value, job.sequence + 1, now);
  }

  /** No local backend refuses, whether or not it has already taken the request. */
  lemma LocalAnswers(ledger: Ledger, id: LeaseId, resource: QuotaResource, job: Job, answer: bool, now: nat)
    requires Filed(ledger) && Timely(job, now) && WellPosed(job) && Underway(ledger, Local(id, resource), job)
    ensures var (after, r) := Poll(ledger, Local(id, resource), job, answer, now);
            r.Ok? && Reached(after, Local(id, resource), job)
  {
    if job.request.UpdateRequest? {
      UpdateAnswers(ledger, id, resource, job, answer, now);
    } else if Reached(ledger, Local(id, resource), job) {
      FinishAnswersAgain(ledger, id, resource, job, answer, now);
    } else {
      FinishAnswers(ledger, id, resource, job, answer, now);
    }
  }

  /** Backends other than `b` are where they were, if their leases outlast `now`. */
  ghost predicate OthersStand(ledger: Ledger, after: Ledger, b: Backend, now: nat) {
    if b.Local? then Spares(ledger, after, b.id, now) else after == ledger
  }

  lemma PollUpdateSpares(
      ledger: Ledger, id: LeaseId, resource: QuotaResource, job: Job, answer: bool, now: nat, total: nat)
    requires Filed(ledger) && job.request.UpdateRequest? && TotalFor(job.next, resource) == Some(total)
    ensures Spares(ledger, Poll(ledger, Local(id, resource), job, answer, now).0, id, now)
  {
    PollIsUpdate(ledger, id, resource, job, answer, now, total);
    UpdateSpares(ledger, id, total, job.sequence + 1, now);
  }

  lemma PollFinishSpares(
      ledger: Ledger, id: LeaseId, resource: QuotaResource, job: Job, answer: bool, now: nat, total: nat)
    requires Filed(ledger) && job.request.FinishRequest? && TotalFor(job.next, resource) == Some(total)
    ensures Spares(ledger, Poll(ledger, Local(id, resource), job, answer, now).0, id, now)
  {
    PollIsFinish(ledger, id, resource, job, answer, now, total);
    FinishSpares(ledger, id, total, job.sequence + 1, now);
  }

  /** Asking one backend leaves the leases of the others as they are. */
  lemma PollSpares(ledger: Ledger, id: LeaseId, resource: QuotaResource, job: Job, answer: bool, now: nat)
    requires Filed(ledger)
    ensures Spares(ledger, Poll(ledger, Local(id, resource), job, answer, now).0, id, now)
  {
    if TotalFor(job.next, resource).None? {
      assert Poll(ledger, Local(id, resource), job, answer, now).0 == ledger;
    } else if job.request.UpdateRequest? {
      PollUpdateSpares(ledger, id, resource, job, answer, now, TotalFor(job.next, resource).value);
    } else {
      PollFinishSpares(ledger, id, resource, job, answer, now, TotalFor(job.next, resource).value);
    }
  }

  lemma UpdateKeepsFiled(ledger: Ledger, id: LeaseId, total: nat, sequence: nat, now: nat)
    requires Filed(ledger)
    ensures Filed(Update(ledger, id, total, sequence, now).0)
  {
    ExpireKeepsFiled(ledger, now);
    UpdateFrame(ledger, id, total, sequence, now);
  }

  lemma FinishKeepsFiled(ledger: Ledger, id: LeaseId, total: nat, sequence: nat, now: nat)
    requires Filed(ledger)
    ensures Filed(Finish(ledger, id, total, sequence, now).0)
  {
    ExpireKeepsFiled(ledger, now);
    FinishFrame(ledger, id, total, sequence, now);
  }

  lemma PollUpdateKeepsFiled(ledger: Ledger, id: LeaseId, resource: QuotaResource, job: Job, answer: bool, now: nat)
    requires Filed(ledger) && job.request.UpdateRequest?
    ensures Filed(Poll(ledger, Local(id, resource), job, answer, now).0)
  {
    if TotalFor(job.next, resource).Some? {
      PollIsUpdate(ledger, id, resource, job, answer, now, TotalFor(job.next, resource).value);
      UpdateKeepsFiled(ledger, id, TotalFor(job.next, resource).value, job.sequence + 1, now);
    }
  }

  lemma PollFinishKeepsFiled(ledger: Ledger, id: LeaseId, resource: QuotaResource, job: Job, answer: bool, now: nat)
    requires Filed(ledger) && job.request.FinishRequest?
    ensures Filed(Poll(ledger, Local(id, resource), job, answer, now).0)
  {
    if TotalFor(job.next, resource).Some? {
      PollIsFinish(ledger, id, resource, job, answer, now, TotalFor(job.next, resource).value);
      FinishKeepsFiled(ledger, id, TotalFor(job.next, resource).value, job.sequence + 1, now);
    }
  }

  lemma PollKeepsFiled(ledger: Ledger, b: Backend, job: Job, answer: bool, now: nat)
    requires Filed(ledger)
    ensures Filed(Poll(ledger, b, job, answer, now).0)
  {
    match b
    case Local(id, resource) =>
      if job.request.UpdateRequest? {
        PollUpdateKeepsFiled(ledger, id, resource, job, answer, now);
      } else {
        PollFinishKeepsFiled(ledger, id, resource, job, answer, now);
      }
    case Remote =>
  }

  lemma QueryKeepsSound(
      ledger: Ledger, backend: Backend, request: Request, totals: seq<QuotaConsumption>, sequence: nat, answer: bool,
      clock: nat, now: nat)
    requires Sound(ledger, clock) && clock <= now
    ensures Sound(Query(ledger, backend, request, totals, sequence, answer, now).0, now)
  {
    if backend.Local? && TotalFor(totals, backend.resource).Some? {
      var total := TotalFor(totals, backend.resource).value;
      if request.UpdateRequest? {
        UpdateKeepsSound(ledger, backend.id, total, sequence, clock, now);
      } else {
        FinishKeepsSound(ledger, backend.id, total, sequence, clock, now);
      }
    } else {
      SoundLater(ledger, clock, now);
    }
  }

  /** What asking one backend of a call does: it fails only where a remote one does, changing nothing,
      and otherwise that backend has taken the request and the others are where they were. */
  ghost predicate Answered(
      ledger: Ledger, result: (Ledger, Result<()>), b: Backend, job: Job, answer: bool, now: nat) {
    && (result.1.Ok? <==> b.Local? || answer)
    && (result.1.Err? ==> result.0 == ledger)
    && OthersStand(ledger, result.0, b, now)
    && (result.1.Ok? ==> Reached(result.0, b, job))
  }

  lemma PollAnswers(ledger: Ledger, b: Backend, job: Job, answer: bool, now: nat)
    requires Filed(ledger) && Timely(job, now) && WellPosed(job) && Underway(ledger, b, job)
    ensures Answered(ledger, Poll(ledger, b, job, answer, now), b, job, answer, now)
  {
    match b
    case Local(id, resource) =>
      LocalAnswers(ledger, id, resource, job, answer, now);
      PollSpares(ledger, id, resource, job, answer, now);
    case Remote =>
  }

  // ---------- one request to every backend ----------

  predicate RemotesConfirm(backends: seq<Backend>, answers: seq<bool>)
    requires |answers| == |backends|
  {
    forall i :: 0 <= i < |backends| && backends[i].Remote? ==> answers[i]
  }

  /** One backend's turn: what others do to the counter first, the time, and what a remote limiter
      would answer. */
  datatype Visit = Visit(between: seq<Step>, now: nat, answer: bool)

  function Answers(visits: seq<Visit>): (answers: seq<bool>)
    ensures |answers| == |visits|
  {
    seq(|visits|, i requires 0 <= i < |visits| => visits[i].answer)
  }

  /** The turns of a call: what turn `i` makes of a ledger, and its result. */
  type Turns = (Ledger, nat) -> (Ledger, Result<()>)

  /** The first `n` turns, up to the first that fails. */
  ghost function Around(ledger: Ledger, turns: Turns, n: nat): (Ledger, Result<()>) {
    if n == 0 then (ledger, Ok(()))
    else
      var (before, r) := Around(ledger, turns, n - 1);
      if r.Err? then (before, r) else turns(before, n - 1)
  }

  /** One turn: others use the counter, then the backend is asked. */
  ghost function Turn(ledger: Ledger, backend: Backend, job: Job, visit: Visit): (Ledger, Result<()>) {
    Poll(Run(ledger, visit.between), backend, job, visit.answer, visit.now)
  }

  ghost function TurnsOf(backends: seq<Backend>, job: Job, visits: seq<Visit>): Turns
    requires |visits| == |backends|
  {
    (ledger: Ledger, i: nat) =>
      if i < |visits| then Turn(ledger, backends[i], job, visits[i]) else (ledger, Ok(()))
  }

  /** The backends in order up to the first that fails, each at its own time, with anybody else using
      the counter between two of them. */
  ghost function SendAround(
      ledger: Ledger, backends: seq<Backend>, job: Job, visits: seq<Visit>): (Ledger, Result<()>)
    requires |visits| == |backends|
  {
    Around(ledger, TurnsOf(backends, job, visits), |backends|)
  }

  function TimeAfter(clock: nat, visits: seq<Visit>, n: nat): nat
    requires n <= |visits|
  {
    if n == 0 then clock else visits[n - 1].now
  }

  /** Time does not go back, others keep away from the leases of the call, and those outlive it. */
  ghost predicate PossibleVisits(
      ledger: Ledger, clock: nat, backends: seq<Backend>, job: Job, visits: seq<Visit>)
    requires |visits| == |backends|
  {
    forall i :: 0 <= i < |visits| ==>
      && PossibleRun(Around(ledger, TurnsOf(backends, job, visits), i).0, TimeAfter(clock, visits, i),
          visits[i].between)
      && Clock(TimeAfter(clock, visits, i), visits[i].between) <= visits[i].now
      && Elsewhere(visits[i].between, Ids(backends), job.horizon) && Timely(job, visits[i].now)
  }

  /** How far a request has come: `all` are under way, and `done` have taken it. */
  ghost predicate Spread(ledger: Ledger, all: seq<Backend>, done: seq<Backend>, job: Job) {
    && Filed(ledger)
    && (forall b :: b in all ==> Underway(ledger, b, job))
    && (forall b :: b in done ==> Reached(ledger, b, job))
  }

  lemma RunSpreads(
      ledger: Ledger, clock: nat, after: Ledger, all: seq<Backend>, done: seq<Backend>, job: Job, between: seq<Step>)
    requires Spread(ledger, all, done, job) && forall b :: b in done ==> b in all
    requires PossibleRun(ledger, clock, between) && Elsewhere(between, Ids(all), job.horizon)
    requires after == Run(ledger, between)
    ensures Spread(after, all, done, job)
  {
    RunKeepsFiled(ledger, clock, between);
    forall b | b in all && b.Local?
      ensures StandingOf(after, b.id) == StandingOf(ledger, b.id)
    {
      var i :| 0 <= i < |all| && all[i] == b;
      assert b.id in Ids(all);
      RunSpares(ledger, clock, between, Ids(all), job.horizon, b.id);
    }
  }

  /** One more backend has taken the request and the others are where they were. */
  lemma SpreadGrows(
      ledger: Ledger, after: Ledger, now: nat, all: seq<Backend>, done: seq<Backend>, b: Backend, job: Job)
    requires Spread(ledger, all, done, job) && forall other :: other in done ==> other in all
    requires DistinctBackends(all) && b in all && now <= job.horizon
    requires Filed(after) && OthersStand(ledger, after, b, now) && Reached(after, b, job)
    ensures Spread(after, all, done + [b], job)
  {
    SameIdSameBackend(all, b);
  }

  lemma AnsweredSpreads(
      ledger: Ledger, result: (Ledger, Result<()>), all: seq<Backend>, done: seq<Backend>, b: Backend, job: Job,
      answer: bool, now: nat)
    requires Answered(ledger, result, b, job, answer, now) && Filed(result.0) && Spread(ledger, all, done, job)
    requires DistinctBackends(all) && b in all && now <= job.horizon && forall other :: other in done ==> other in all
    ensures Spread(result.0, all, if result.1.Ok? then done + [b] else [], job)
  {
    if result.1.Ok? {
      SpreadGrows(ledger, result.0, now, all, done, b, job);
    }
  }

  lemma SameIdSameBackend(backends: seq<Backend>, b: Backend)
    requires DistinctBackends(backends) && b in backends
    ensures forall other :: other in backends && other.Local? && b.Local? && other.id == b.id ==> other == b
  {
  }

  lemma RemotesSplit(backends: seq<Backend>, answers: seq<bool>)
    requires backends != [] && |answers| == |backends|
    ensures var last := |backends| - 1;
            RemotesConfirm(backends, answers)
            <==> RemotesConfirm(backends[..last], answers[..last]) && (backends[last].Local? || answers[last])
  {
    var last := |backends| - 1;
    assert forall i :: 0 <= i < last ==> backends[..last][i] == backends[i] && answers[..last][i] == answers[i];
  }

  /** A turn that starts where the earlier ones succeeded. */
  ghost predicate TurnGoesOn(
      before: (Ledger, Result<()>), after: (Ledger, Result<()>), backends: seq<Backend>, job: Job, answer: bool, i: nat)
    requires i < |backends|
  {
    before.1.Ok? && Spread(before.0, backends, backends[..i], job) ==>
      && (after.1.Ok? <==> backends[i].Local? || answer)
      && Spread(after.0, backends, if after.1.Ok? then backends[..i + 1] else [], job)
  }

  lemma PollSpreads(ledger: Ledger, backends: seq<Backend>, job: Job, answer: bool, now: nat, i: nat)
    requires i < |backends| && WellPosed(job) && DistinctBackends(backends) && Timely(job, now)
    requires Spread(ledger, backends, backends[..i], job)
    ensures var result := Poll(ledger, backends[i], job, answer, now);
            && (result.1.Ok? <==> backends[i].Local? || answer)
            && Spread(result.0, backends, if result.1.Ok? then backends[..i + 1] else [], job)
  {
    assert backends[..i + 1] == backends[..i] + [backends[i]];
    PollAnswers(ledger, backends[i], job, answer, now);
    PollKeepsFiled(ledger, backends[i], job, answer, now);
    AnsweredSpreads(ledger, Poll(ledger, backends[i], job, answer, now), backends, backends[..i], backends[i], job,
      answer, now);
  }

  /** What precedes a backend's turn, and the turn itself. */
  lemma TakeTurn(
      start: Ledger, clock: nat, ledger: Ledger, backends: seq<Backend>, job: Job, visit: Visit, i: nat)
    requires i < |backends| && WellPosed(job) && DistinctBackends(backends)
    requires PossibleRun(start, clock, visit.between)
    requires Elsewhere(visit.between, Ids(backends), job.horizon) && Timely(job, visit.now)
    requires Spread(start, backends, backends[..i], job)
    requires ledger == Run(start, visit.between)
    ensures var result := Turn(start, backends[i], job, visit);
            && (result.1.Ok? <==> backends[i].Local? || visit.answer)
            && Spread(result.0, backends, if result.1.Ok? then backends[..i + 1] else [], job)
  {
    RunSpreads(start, clock, ledger, backends, backends[..i], job, visit.between);
    PollSpreads(ledger, backends, job, visit.answer, visit.now, i);
  }

  /** The first `n` backends of a request have had their turn. */
  ghost predicate Visited(
      result: (Ledger, Result<()>), backends: seq<Backend>, job: Job, visits: seq<Visit>, n: nat)
    requires n <= |backends| == |visits|
  {
    && (result.1.Ok? <==> RemotesConfirm(backends[..n], Answers(visits)[..n]))
    && Spread(result.0, backends, if result.1.Ok? then backends[..n] else [], job)
  }

  lemma {:induction false} TurnsGoOn(
      ledger: Ledger, backends: seq<Backend>, job: Job, visits: seq<Visit>, turns: Turns, n: nat)
    requires Spread(ledger, backends, [], job) && n <= |backends| == |visits|
    requires forall i :: 0 <= i < n ==>
      TurnGoesOn(Around(ledger, turns, i), Around(ledger, turns, i + 1), backends, job, visits[i].answer, i)
    ensures Visited(Around(ledger, turns, n), backends, job, visits, n)
  {
    if n > 0 {
      var last := n - 1;
      TurnsGoOn(ledger, backends, job, visits, turns, last);
      assert backends[..n][..last] == backends[..last] && Answers(visits)[..n][..last] == Answers(visits)[..last];
      RemotesSplit(backends[..n], Answers(visits)[..n]);
      assert TurnGoesOn(Around(ledger, turns, last), Around(ledger, turns, n), backends, job, visits[last].answer,
        last);
    }
  }

  lemma NextTurn(ledger: Ledger, turns: Turns, i: nat)
    ensures var (before, r) := Around(ledger, turns, i);
            Around(ledger, turns, i + 1) == if r.Err? then (before, r) else turns(before, i)
  {
  }

  lemma TurnIs(before: Ledger, backends: seq<Backend>, job: Job, visits: seq<Visit>, i: nat)
    requires i < |backends| == |visits|
    ensures TurnsOf(backends, job, visits)(before, i) == Turn(before, backends[i], job, visits[i])
  {
  }

  lemma EachTurnGoesOn(
      ledger: Ledger, clock: nat, backends: seq<Backend>, job: Job, visits: seq<Visit>, turns: Turns, i: nat)
    requires i < |backends| == |visits| && turns == TurnsOf(backends, job, visits)
    requires PossibleVisits(ledger, clock, backends, job, visits) && WellPosed(job) && DistinctBackends(backends)
    ensures TurnGoesOn(Around(ledger, turns, i), Around(ledger, turns, i + 1), backends, job, visits[i].answer, i)
  {
    var (before, r) := Around(ledger, turns, i);
    NextTurn(ledger, turns, i);
    if r.Ok? && Spread(before, backends, backends[..i], job) {
      TurnIs(before, backends, job, visits, i);
      TakeTurn(before, TimeAfter(clock, visits, i), Run(before, visits[i].between), backends, job, visits[i], i);
    }
  }

  /** A request to all backends, some of which may already have taken it, each asked at its own time and
      anybody else using the counter in between: it fails only where a remote one does, no backend is
      set back, and on success all have taken it. */
  lemma SendEvery(ledger: Ledger, clock: nat, backends: seq<Backend>, job: Job, visits: seq<Visit>)
    requires Filed(ledger) && WellPosed(job) && DistinctBackends(backends) && |visits| == |backends|
    requires forall b :: b in backends ==> Underway(ledger, b, job)
    requires PossibleVisits(ledger, clock, backends, job, visits)
    ensures var (after, r) := SendAround(ledger, backends, job, visits);
            && Filed(after)
            && (r.Ok? <==> RemotesConfirm(backends, Answers(visits)))
            && (r.Ok? ==> forall b :: b in backends ==> Reached(after, b, job))
            && (forall b :: b in backends ==> Underway(after, b, job))
  {
    var turns := TurnsOf(backends, job, visits);
    forall i | 0 <= i < |backends|
      ensures TurnGoesOn(Around(ledger, turns, i), Around(ledger, turns, i + 1), backends, job, visits[i].answer, i)
    {
      EachTurnGoesOn(ledger, clock, backends, job, visits, turns, i);
    }
    TurnsGoOn(ledger, backends, job, visits, turns, |backends|);
    assert backends[..|backends|] == backends && Answers(visits)[..|visits|] == Answers(visits);
  }

  // ---------- a call with one reading of the clock ----------

  ghost function SendAll(
      ledger: Ledger, backends: seq<Backend>, job: Job, answers: seq<bool>, now: nat): (Ledger, Result<()>)
    requires |answers| == |backends|
  {
    QueryAll(ledger, backends, job.request, job.next, job.sequence + 1, answers, now)
  }

  /** Nobody else in between. */
  function Alone(answers: seq<bool>, now: nat): (visits: seq<Visit>)
    ensures |visits| == |answers|
  {
    seq(|answers|, i requires 0 <= i < |answers| => Visit([], now, answers[i]))
  }

  lemma {:induction false} FirstTurnsAlone(
      ledger: Ledger, backends: seq<Backend>, job: Job, answers: seq<bool>, now: nat, n: nat)
    requires |answers| == |backends| && n <= |backends|
    ensures Around(ledger, TurnsOf(backends, job, Alone(answers, now)), n)
         == SendAll(ledger, backends[..n], job, answers[..n], now)
  {
    if n > 0 {
      assert backends[..n][..n - 1] == backends[..n - 1] && answers[..n][..n - 1] == answers[..n - 1];
      FirstTurnsAlone(ledger, backends, job, answers, now, n - 1);
      AsksLast(ledger, backends[..n], job.request, job.next, job.sequence + 1, answers[..n], now);
    }
  }

  lemma SendAllIsAlone(ledger: Ledger, clock: nat, backends: seq<Backend>, job: Job, answers: seq<bool>, now: nat)
    requires |answers| == |backends| && clock <= now && Timely(job, now)
    ensures SendAround(ledger, backends, job, Alone(answers, now)) == SendAll(ledger, backends, job, answers, now)
    ensures PossibleVisits(ledger, clock, backends, job, Alone(answers, now))
  {
    FirstTurnsAlone(ledger, backends, job, answers, now, |backends|);
    assert backends[..|backends|] == backends && answers[..|answers|] == answers;
  }

  /** The request made at one reading of the clock, with nobody in between. */
  lemma SendAtOnce(ledger: Ledger, clock: nat, backends: seq<Backend>, job: Job, answers: seq<bool>, now: nat)
    requires Filed(ledger) && clock <= now && Timely(job, now) && WellPosed(job)
    requires DistinctBackends(backends) && |answers| == |backends|
    requires forall b :: b in backends ==> Underway(ledger, b, job)
    ensures var (after, r) := SendAll(ledger, backends, job, answers, now);
            && Filed(after)
            && (forall b :: b in backends ==> Underway(after, b, job))
            && (r.Ok? ==> forall b :: b in backends ==> Reached(after, b, job))
            && (r.Ok? <==> RemotesConfirm(backends, answers))
  {
    SendAllIsAlone(ledger, clock, backends, job, answers, now);
    assert Answers(Alone(answers, now)) == answers;
    SendEvery(ledger, clock, backends, job, Alone(answers, now));
  }

  /** The same for the first `n` backends of a call, with what it means for all of them. */
  lemma SendSome(
      ledger: Ledger, clock: nat, backends: seq<Backend>, job: Job, answers: seq<bool>, now: nat, n: nat)
    requires clock <= now && Timely(job, now) && WellPosed(job) && DistinctBackends(backends)
    requires Spread(ledger, backends, [], job) && n <= |backends| == |answers|
    ensures var (after, r) := SendAll(ledger, backends[..n], job, answers[..n], now);
            && Spread(after, backends, if r.Ok? then backends[..n] else [], job)
            && (r.Ok? <==> RemotesConfirm(backends[..n], answers[..n]))
  {
    var visits := Alone(answers, now);
    var turns := TurnsOf(backends, job, visits);
    SendAllIsAlone(ledger, clock, backends, job, answers, now);
    forall i | 0 <= i < n
      ensures TurnGoesOn(Around(ledger, turns, i), Around(ledger, turns, i + 1), backends, job, visits[i].answer, i)
    {
      EachTurnGoesOn(ledger, clock, backends, job, visits, turns, i);
    }
    TurnsGoOn(ledger, backends, job, visits, turns, n);
    FirstTurnsAlone(ledger, backends, job, answers, now, n);
    assert Answers(visits) == answers;
  }

  lemma {:induction false} QueryAllKeepsSound(
      ledger: Ledger, backends: seq<Backend>, request: Request, totals: seq<QuotaConsumption>, sequence: nat,
      answers: seq<bool>, clock: nat, now: nat)
    requires |answers| == |backends|
    requires Sound(ledger, clock) && clock <= now
    ensures Sound(QueryAll(ledger, backends, request, totals, sequence, answers, now).0, now)
  {
    SoundLater(ledger, clock, now);
    if backends != [] {
      var last := |backends| - 1;
      QueryAllKeepsSound(ledger, backends[..last], request, totals, sequence, answers[..last], clock, now);
      var (before, r) := QueryAll(ledger, backends[..last], request, totals, sequence, answers[..last], now);
      AsksLast(ledger, backends, request, totals, sequence, answers, now);
      QueryKeepsSound(before, backends[last], request, totals, sequence, answers[last], now, now);
    }
  }
}
