/** What a caller of a lease can rely on, over any sequence of calls. */
module LeaseProtocol {
  import opened QuotaTypes
  import opened QuotaLedger
  import opened LedgerLaws
  import opened LedgerRuns
  import opened LeaseStandings
  import opened LeaseClient
  import opened LeaseLaws

  // ---------- client and backends in step ----------

  /** Whatever the client accepts no local backend refuses, and afterwards every backend has the
      client's totals and sequence number; what it rejects changes nothing. */
  lemma UpdateSimulates(
      ledger: Ledger, clock: nat, client: Client, reservations: seq<QuotaAmount>, backends: seq<Backend>,
      updates: seq<QuotaConsumption>, answers: seq<bool>, now: nat, horizon: nat)
    requires Sound(ledger, clock) && clock <= now <= horizon
    requires InStep(ledger, client, reservations, backends, horizon) && client.sequence < U64_MAX
    requires |answers| == |backends| && RemotesConfirm(backends, answers)
    ensures var (after, c, r) := UpdateConsumptions(ledger, client, reservations, backends, updates, answers, now);
            && (r.Ok? <==> Acceptable(reservations, client.consumptions, updates))
            && c.consumptions == (if r.Ok? then Overlay(client.consumptions, updates) else client.consumptions)
            && Advances(reservations, client.consumptions, c.consumptions)
            && client.sequence <= c.sequence <= client.sequence + 1
            && Sound(after, now) && InStep(after, c, reservations, backends, horizon)
  {
    SoundLater(ledger, clock, now);
    if Acceptable(reservations, client.consumptions, updates) {
      AcceptedAdvances(reservations, client.consumptions, updates);
      var next := Overlay(client.consumptions, updates);
      if next != client.consumptions {
        SendAtOnce(ledger, clock, backends,
          Job(UpdateRequest, reservations, client.consumptions, next, client.sequence, horizon), answers, now);
        QueryAllKeepsSound(ledger, backends, UpdateRequest, next, client.sequence + 1, answers, clock, now);
      }
    }
  }

  datatype Call = Call(updates: seq<QuotaConsumption>, answers: seq<bool>, now: nat)

  /** The ledger and the client after a sequence of update calls. */
  ghost function Calls(
      ledger: Ledger, client: Client, reservations: seq<QuotaAmount>, backends: seq<Backend>, calls: seq<Call>)
    : (Ledger, Client)
    requires forall call :: call in calls ==> |call.answers| == |backends|
  {
    if calls == [] then (ledger, client)
    else
      var (l, c) := Calls(ledger, client, reservations, backends, calls[..|calls| - 1]);
      var last := calls[|calls| - 1];
      var (after, next, r) := UpdateConsumptions(l, c, reservations, backends, last.updates, last.answers, last.now);
      (after, next)
  }

  ghost predicate FailureFree(backends: seq<Backend>, calls: seq<Call>, clock: nat, horizon: nat) {
    && (forall call :: call in calls ==>
          && |call.answers| == |backends| && RemotesConfirm(backends, call.answers) && clock <= call.now <= horizon)
    && forall i, j :: 0 <= i < j < |calls| ==> calls[i].now <= calls[j].now
  }

  /** Over every failure-free sequence of calls on an unexpired lease, client and backends agree
      after each call, and a call succeeds exactly when its totals are acceptable. */
  lemma {:induction false} CallsStayInStep(
      ledger: Ledger, clock: nat, client: Client, reservations: seq<QuotaAmount>, backends: seq<Backend>,
      calls: seq<Call>, horizon: nat)
    requires Sound(ledger, clock) && InStep(ledger, client, reservations, backends, horizon)
    requires FailureFree(backends, calls, clock, horizon) && client.sequence + |calls| <= U64_MAX
    ensures var (after, c) := Calls(ledger, client, reservations, backends, calls);
            && InStep(after, c, reservations, backends, horizon)
            && c.sequence <= client.sequence + |calls|
            && Sound(after, if calls == [] then clock else calls[|calls| - 1].now)
    ensures calls != [] ==>
              var last := calls[|calls| - 1];
              var (l, c) := Calls(ledger, client, reservations, backends, calls[..|calls| - 1]);
              UpdateConsumptions(l, c, reservations, backends, last.updates, last.answers, last.now).2.Ok?
              <==> Acceptable(reservations, c.consumptions, last.updates)
  {
    if calls != [] {
      var before, last := calls[..|calls| - 1], calls[|calls| - 1];
      assert last in calls;
      assert forall call :: call in before ==> call in calls;
      CallsStayInStep(ledger, clock, client, reservations, backends, before, horizon);
      var (l, c) := Calls(ledger, client, reservations, backends, before);
      var time := if before == [] then clock else before[|before| - 1].now;
      UpdateSimulates(l, time, c, reservations, backends, last.updates, last.answers, last.now, horizon);
    }
  }

  /** Finishing an unexpired lease with acceptable totals settles every backend with them. */
  lemma FinishSimulates(
      ledger: Ledger, clock: nat, client: Client, reservations: seq<QuotaAmount>, backends: seq<Backend>,
      updates: seq<QuotaConsumption>, answers: seq<bool>, now: nat, horizon: nat)
    requires Sound(ledger, clock) && clock <= now <= horizon < now + RETENTION
    requires InStep(ledger, client, reservations, backends, horizon) && client.sequence < U64_MAX
    requires |answers| == |backends| && RemotesConfirm(backends, answers)
    ensures var (after, c, r) := FinishConsumptions(ledger, client, reservations, backends, updates, answers, now);
            && (r.Ok? <==> Acceptable(reservations, client.consumptions, updates))
            && (r.Err? ==> after == ledger && c == client)
            && (r.Ok? ==>
                  && c == Client(Overlay(client.consumptions, updates), client.sequence + 1, true)
                  && forall b :: b in backends ==> Closed(after, b, c.consumptions, c.sequence, horizon))
  {
    if Acceptable(reservations, client.consumptions, updates) {
      AcceptedAdvances(reservations, client.consumptions, updates);
      SendAtOnce(ledger, clock, backends,
        Job(FinishRequest, reservations, client.consumptions, Overlay(client.consumptions, updates), client.sequence,
          horizon),
        answers, now);
    }
  }

  // ---------- failing ----------

  /** The order in which a lease is put together: the remote limiter, if any, comes first. */
  predicate RemoteFirst(backends: seq<Backend>) {
    forall i :: 1 <= i < |backends| ==> backends[i].Local?
  }

  /** A call whose first backend is a remote one that refuses changes nothing. */
  lemma FirstRefuses(
      ledger: Ledger, backends: seq<Backend>, request: Request, totals: seq<QuotaConsumption>, sequence: nat,
      answers: seq<bool>, now: nat)
    requires backends != [] && |answers| == |backends| && backends[0].Remote? && !answers[0]
    ensures QueryAll(ledger, backends, request, totals, sequence, answers, now) == (ledger, Err(NetworkError))
  {
    assert backends[..1][..0] == [] && backends[..1][0] == backends[0] && answers[..1][0] == answers[0];
    AsksLast(ledger, backends[..1], request, totals, sequence, answers[..1], now);
    StopsThere(ledger, backends, request, totals, sequence, answers, now, 1);
  }

  /** With the remote limiter first, a request that fails has reached no backend: local ones never refuse,
      and the remote one is asked before any of them. */
  lemma FailedRequestChangesNothing(
      ledger: Ledger, backends: seq<Backend>, job: Job, answers: seq<bool>, now: nat)
    requires Filed(ledger) && Timely(job, now) && WellPosed(job) && DistinctBackends(backends) && RemoteFirst(backends)
    requires |answers| == |backends| && forall b :: b in backends ==> Underway(ledger, b, job)
    ensures var (after, r) := SendAll(ledger, backends, job, answers, now);
            r.Err? ==> after == ledger
  {
    if RemotesConfirm(backends, answers) {
      SendAtOnce(ledger, now, backends, job, answers, now);
    } else {
      var i :| 0 <= i < |backends| && backends[i].Remote? && !answers[i];
      FirstRefuses(ledger, backends, job.request, job.next, job.sequence + 1, answers, now);
    }
  }

  /** A call of the client, with the horizon up to which its lease lives. */
  datatype Attempt = Attempt(request: Request, updates: seq<QuotaConsumption>, answers: seq<bool>, now: nat)

  ghost function Made(
      ledger: Ledger, client: Client, reservations: seq<QuotaAmount>, backends: seq<Backend>, attempt: Attempt)
    : (Ledger, Client, Result<()>)
    requires |attempt.answers| == |backends|
  {
    match attempt.request
    case UpdateRequest =>
      UpdateConsumptions(ledger, client, reservations, backends, attempt.updates, attempt.answers, attempt.now)
    case FinishRequest =>
      FinishConsumptions(ledger, client, reservations, backends, attempt.updates, attempt.answers, attempt.now)
  }

  /** A failed update or finish of a lease in step leaves counter and client as they were. */
  lemma FailedCallChangesNothing(
      ledger: Ledger, client: Client, reservations: seq<QuotaAmount>, backends: seq<Backend>, attempt: Attempt,
      horizon: nat)
    requires Filed(ledger) && InStep(ledger, client, reservations, backends, horizon) && RemoteFirst(backends)
    requires |attempt.answers| == |backends| && attempt.now <= horizon
    requires attempt.request.FinishRequest? ==> horizon < attempt.now + RETENTION
    ensures var (after, c, r) := Made(ledger, client, reservations, backends, attempt);
            r.Err? ==> after == ledger && c == client
  {
    if Acceptable(reservations, client.consumptions, attempt.updates) && client.sequence < U64_MAX {
      AcceptedAdvances(reservations, client.consumptions, attempt.updates);
      var next := Overlay(client.consumptions, attempt.updates);
      var job := Job(attempt.request, reservations, client.consumptions, next, client.sequence, horizon);
      FailedRequestChangesNothing(ledger, backends, job, attempt.answers, attempt.now);
    }
  }

  // ---------- retrying ----------

  /** Retry convergence. A request may have reached any of the backends before it failed, was
      interrupted, or its confirmation was lost; other callers may do anything before, between and after
      its turns. Sending the same totals again succeeds as soon as the remote limiters answer, and every
      backend ends up having taken the request, once. */
  lemma RetryCatchesUp(
      ledger: Ledger, clock: nat, backends: seq<Backend>, job: Job, first: seq<Visit>, start: nat, again: seq<Visit>)
    requires Filed(ledger) && WellPosed(job) && DistinctBackends(backends) && |first| == |backends| == |again|
    requires forall b :: b in backends ==> Confirmed(ledger, b, job)
    requires PossibleVisits(ledger, clock, backends, job, first)
    requires var failed := SendAround(ledger, backends, job, first).0;
             PossibleVisits(failed, start, backends, job, again)
    requires RemotesConfirm(backends, Answers(again))
    ensures var failed := SendAround(ledger, backends, job, first).0;
            var (after, r) := SendAround(failed, backends, job, again);
            r.Ok? && forall b :: b in backends ==> Reached(after, b, job)
  {
    SendEvery(ledger, clock, backends, job, first);
    SendEvery(SendAround(ledger, backends, job, first).0, start, backends, job, again);
  }

  // ---------- dropping ----------

  /** What dropping makes of a lease whose client confirmed `job.confirmed` last: the lease is settled with
      that, unless it has taken the next update, in which case it stays as it is. */
  predicate AbandonedTo(before: Standing, after: Standing, resource: QuotaResource, job: Job) {
    if ConfirmedAt(before, resource, job)
    then ClosedAt(after, resource, job.confirmed, job.sequence + 1, job.horizon)
    else after == before
  }

  ghost function DropAll(ledger: Ledger, backends: seq<Backend>, job: Job, now: nat): Ledger {
    AbandonAll(ledger, backends, job.confirmed, job.sequence + 1, now)
  }

  /** When dropping is well timed, and a lease that took the update can be told from one that did not. */
  predicate Droppable(job: Job, now: nat) {
    job.request.UpdateRequest? && now <= job.horizon < now + RETENTION && job.sequence < U64_MAX
  }

  /** Dropping asks a backend to finish with the confirmed totals. */
  function Ending(job: Job): Job {
    job.(request := FinishRequest, next := job.confirmed)
  }

  lemma DropConfirmed(ledger: Ledger, id: LeaseId, resource: QuotaResource, job: Job, now: nat)
    requires Filed(ledger) && Droppable(job, now) && Confirmed(ledger, Local(id, resource), job)
    ensures ClosedAt(StandingOf(Poll(ledger, Local(id, resource), Ending(job), true, now).0, id), resource,
              job.confirmed, job.sequence + 1, job.horizon)
  {
    FinishAnswers(ledger, id, resource, Ending(job), true, now);
  }

  lemma DropReached(ledger: Ledger, id: LeaseId, resource: QuotaResource, job: Job, now: nat)
    requires Filed(ledger) && Droppable(job, now) && Reached(ledger, Local(id, resource), job)
    requires job.sequence + 1 < U64_MAX
    ensures StandingOf(Poll(ledger, Local(id, resource), Ending(job), true, now).0, id) == StandingOf(ledger, id)
  {
    if TotalFor(job.confirmed, resource).Some? {
      FinishRefused(ledger, id, TotalFor(job.confirmed, resource).value, job.sequence + 1, now);
    }
  }

  /** The first `n` backends have been dropped, the others not yet. */
  ghost predicate Dropping(start: Ledger, ledger: Ledger, all: seq<Backend>, n: nat, job: Job) {
    && n <= |all| && Filed(ledger)
    && forall i :: 0 <= i < |all| && all[i].Local? ==>
         var before, after := StandingOf(start, all[i].id), StandingOf(ledger, all[i].id);
         if i < n then AbandonedTo(before, after, all[i].resource, job) else after == before
  }

  lemma DropsOn(
      start: Ledger, before: Ledger, after: Ledger, all: seq<Backend>, n: nat, job: Job, now: nat)
    requires Dropping(start, before, all, n, job) && n < |all| && DistinctBackends(all) && now <= job.horizon
    requires forall b :: b in all ==> Underway(start, b, job)
    requires Filed(after) && OthersStand(before, after, all[n], now)
    requires all[n].Local? ==>
      AbandonedTo(StandingOf(before, all[n].id), StandingOf(after, all[n].id), all[n].resource, job)
    ensures Dropping(start, after, all, n + 1, job)
  {
    forall i | 0 <= i < |all| && all[i].Local? && i != n
      ensures StandingOf(after, all[i].id) == StandingOf(before, all[i].id)
    {
      assert Underway(start, all[i], job);
    }
  }

  /** The backend whose turn it is. */
  lemma DropOwn(start: Ledger, before: Ledger, id: LeaseId, resource: QuotaResource, job: Job, now: nat)
    requires Filed(before) && Droppable(job, now) && Underway(start, Local(id, resource), job)
    requires StandingOf(before, id) == StandingOf(start, id)
    requires job.sequence + 1 < U64_MAX || Confirmed(start, Local(id, resource), job)
    ensures var after := Poll(before, Local(id, resource), Ending(job), true, now).0;
            AbandonedTo(StandingOf(before, id), StandingOf(after, id), resource, job)
  {
    if Confirmed(start, Local(id, resource), job) {
      DropConfirmed(before, id, resource, job, now);
    } else {
      DropReached(before, id, resource, job, now);
    }
  }

  lemma DropNext(start: Ledger, before: Ledger, after: Ledger, all: seq<Backend>, n: nat, job: Job, now: nat)
    requires Dropping(start, before, all, n, job) && n < |all| && DistinctBackends(all) && Droppable(job, now)
    requires forall b :: b in all ==> Underway(start, b, job)
    requires job.sequence + 1 < U64_MAX || Confirmed(start, all[n], job)
    requires after == Poll(before, all[n], Ending(job), true, now).0
    ensures Dropping(start, after, all, n + 1, job)
  {
    PollKeepsFiled(before, all[n], Ending(job), true, now);
    match all[n]
    case Local(id, resource) =>
      PollSpares(before, id, resource, Ending(job), true, now);
      DropOwn(start, before, id, resource, job, now);
      DropsOn(start, before, after, all, n, job, now);
    case Remote =>
      DropsOn(start, before, after, all, n, job, now);
  }

  lemma DropUnfolds(start: Ledger, before: Ledger, all: seq<Backend>, n: nat, job: Job, now: nat)
    requires n < |all| && before == DropAll(start, all[..n], job, now)
    ensures DropAll(start, all[..n + 1], job, now) == Poll(before, all[n], Ending(job), true, now).0
  {
    assert all[..n + 1][..n] == all[..n];
  }

  lemma {:induction false} DropSome(
      start: Ledger, all: seq<Backend>, n: nat, job: Job, now: nat) returns (after: Ledger)
    requires Filed(start) && n <= |all| && DistinctBackends(all) && Droppable(job, now)
    requires forall b :: b in all ==> Underway(start, b, job)
    requires job.sequence + 1 < U64_MAX || forall b :: b in all ==> Confirmed(start, b, job)
    ensures after == DropAll(start, all[..n], job, now) && Dropping(start, after, all, n, job)
  {
    if n == 0 {
      after := start;
    } else {
      var before := DropSome(start, all, n - 1, job, now);
      DropUnfolds(start, before, all, n - 1, job, now);
      after := Poll(before, all[n - 1], Ending(job), true, now).0;
      DropNext(start, before, after, all, n - 1, job, now);
    }
  }

  /** Dropping a lease while an update is under way settles a local backend with the last confirmed total
      exactly if the update has not reached it; one that took the update keeps its lease as it is. */
  lemma DropSettlesTheUnreached(ledger: Ledger, backends: seq<Backend>, job: Job, now: nat)
    requires Filed(ledger) && DistinctBackends(backends) && Droppable(job, now)
    requires forall b :: b in backends ==> Underway(ledger, b, job)
    requires job.sequence + 1 < U64_MAX || forall b :: b in backends ==> Confirmed(ledger, b, job)
    ensures var after := DropAll(ledger, backends, job, now);
            forall b :: b in backends && b.Local? ==>
              AbandonedTo(StandingOf(ledger, b.id), StandingOf(after, b.id), b.resource, job)
  {
    var after := DropSome(ledger, backends, |backends|, job, now);
    assert backends[..|backends|] == backends;
  }

  /** Dropping a lease in step settles every local backend with the confirmed totals. */
  lemma DropSettlesConfirmed(
      ledger: Ledger, client: Client, reservations: seq<QuotaAmount>, backends: seq<Backend>, now: nat, horizon: nat)
    requires Filed(ledger) && now <= horizon < now + RETENTION
    requires InStep(ledger, client, reservations, backends, horizon) && client.sequence < U64_MAX
    ensures var after := Dropped(ledger, client, backends, now);
            forall b :: b in backends ==> Closed(after, b, client.consumptions, client.sequence + 1, horizon)
  {
    var job := Job(UpdateRequest, reservations, client.consumptions, client.consumptions, client.sequence, horizon);
    DropSettlesTheUnreached(ledger, backends, job, now);
  }

  lemma InStepStays(
      ledger: Ledger, clock: nat, client: Client, reservations: seq<QuotaAmount>, backends: seq<Backend>,
      between: seq<Step>, horizon: nat)
    requires Filed(ledger) && InStep(ledger, client, reservations, backends, horizon)
    requires PossibleRun(ledger, clock, between) && Elsewhere(between, Ids(backends), horizon)
    ensures Filed(Run(ledger, between)) && InStep(Run(ledger, between), client, reservations, backends, horizon)
  {
    RunKeepsFiled(ledger, clock, between);
    forall b | b in backends && b.Local?
      ensures StandingOf(Run(ledger, between), b.id) == StandingOf(ledger, b.id)
    {
      var i :| 0 <= i < |backends| && backends[i] == b;
      RunSpares(ledger, clock, between, Ids(backends), horizon, b.id);
    }
  }

  /** What the documentation of a lease promises of a drop: whatever call of it failed before, and whatever
      others did since, every local backend is settled with the totals confirmed last. */
  lemma DropAfterFailureSettlesConfirmed(
      ledger: Ledger, client: Client, reservations: seq<QuotaAmount>, backends: seq<Backend>, attempt: Attempt,
      between: seq<Step>, late: nat, horizon: nat)
    requires Filed(ledger) && InStep(ledger, client, reservations, backends, horizon) && RemoteFirst(backends)
    requires |attempt.answers| == |backends| && client.sequence < U64_MAX
    requires attempt.now <= late <= horizon < late + RETENTION
    requires Made(ledger, client, reservations, backends, attempt).2.Err?
    requires var after := Made(ledger, client, reservations, backends, attempt).0;
             PossibleRun(after, attempt.now, between) && Elsewhere(between, Ids(backends), horizon)
    ensures var (after, c, r) := Made(ledger, client, reservations, backends, attempt);
            var dropped := Dropped(Run(after, between), c, backends, late);
            forall b :: b in backends ==> Closed(dropped, b, client.consumptions, client.sequence + 1, horizon)
  {
    assert InStep(ledger, client, reservations, backends, attempt.now);
    FailedCallChangesNothing(ledger, client, reservations, backends, attempt, attempt.now);
    InStepStays(ledger, attempt.now, client, reservations, backends, between, horizon);
    DropSettlesConfirmed(Run(ledger, between), client, reservations, backends, late, horizon);
  }

  /** Were a local backend asked before the remote one, a failure of the remote one would leave it with
      totals the client never confirmed, and a drop would not settle it. */
  lemma LocalBeforeRemoteStaysOpen(ledger: Ledger, local: Backend, job: Job, now: nat, late: nat)
    requires Filed(ledger) && local.Local? && Confirmed(ledger, local, job) && WellPosed(job)
    requires job.request.UpdateRequest? && now <= late <= job.horizon < late + RETENTION && job.sequence + 1 < U64_MAX
    ensures var backends := [local, Remote];
            var (failed, r) := SendAll(ledger, backends, job, [true, false], now);
            r.Err? && Reached(failed, local, job) && Reached(DropAll(failed, backends, job, late), local, job)
  {
    var backends, answers := [local, Remote], [true, false];
    assert backends[1] == Remote && !answers[1];
    assert backends[..1] == [local] && answers[..1] == [true];
    SendAtOnce(ledger, now, backends, job, answers, now);
    SendAtOnce(ledger, now, [local], job, [true], now);
    var failed := SendAll(ledger, backends, job, answers, now).0;
    assert failed == SendAll(ledger, [local], job, [true], now).0;
    assert local in [local] && local in backends;
    DropSettlesTheUnreached(failed, backends, job, late);
  }

  /** Such a lease is charged the unconfirmed total when it expires. */
  lemma OpenLeaseExpiresUnconfirmed(ledger: Ledger, backend: Backend, job: Job, late: nat)
    requires backend.Local? && job.request.UpdateRequest? && Reached(ledger, backend, job)
    requires ledger.leases[backend.id].expiresAt <= late
    ensures var after := Expire(ledger, late);
            && backend.id !in after.leases && backend.id in after.retired
            && TotalFor(job.next, backend.resource) == Some(after.retired[backend.id].consumedTotal)
  {
    assert backend.id in ExpiredLeases(ledger.leases, late);
  }
}
