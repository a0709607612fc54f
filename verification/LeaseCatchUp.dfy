/** A request that failed and is sent again later leaves the ledger that one call made at the later time
    leaves, but for the times at which the records of finished leases lapse. */
module LeaseCatchUp {
  import opened QuotaTypes
  import opened QuotaLedger
  import opened LedgerLaws
  import opened LedgerRuns
  import opened LeaseRetries
  import opened LeaseStandings
  import opened LeaseClient
  import opened LeaseLaws

  // ---------- ledgers that differ in the times of records ----------

  predicate SameRecords(a: map<LeaseId, CompletedLease>, b: map<LeaseId, CompletedLease>) {
    && a.Keys == b.Keys
    && forall id :: id in a ==> a[id].consumedTotal == b[id].consumedTotal && a[id].sequence == b[id].sequence
  }

  /** Equal in everything but when the records of finished leases lapse. */
  ghost predicate Alike(a: Ledger, b: Ledger) {
    && a.windows == b.windows && a.concurrency == b.concurrency && a.leases == b.leases && a.retired == b.retired
    && SameRecords(a.completed, b.completed)
  }

  // ---------- expiring twice ----------

  lemma ExpiredLater(leases: map<LeaseId, LocalLease>, now: nat, later: nat)
    requires now <= later
    ensures var first := ExpiredLeases(leases, now);
            var rest := ExpiredLeases(leases - first.Keys, later);
            first.Keys !! rest.Keys && first + rest == ExpiredLeases(leases, later)
  {
  }

  lemma RetainedLater(completed: map<LeaseId, CompletedLease>, now: nat, later: nat)
    requires now <= later
    ensures RetainedRecords(RetainedRecords(completed, now), later) == RetainedRecords(completed, later)
  {
  }

  /** Cleaning up and then cleaning up later is cleaning up later. */
  lemma ExpireTwice(ledger: Ledger, now: nat, later: nat)
    requires now <= later
    ensures Expire(Expire(ledger, now), later) == Expire(ledger, later)
  {
    var first := ExpiredLeases(ledger.leases, now);
    ExpiredLater(ledger.leases, now, later);
    RetireUnion(ledger, first, ExpiredLeases(ledger.leases - first.Keys, later), ExpiredLeases(ledger.leases, later));
    RetainedLater(ledger.completed, now, later);
  }

  // ---------- a report, and then expiry ----------

  lemma RevaluedExpires(leases: map<LeaseId, LocalLease>, id: LeaseId, lease: LocalLease, later: nat)
    requires id in leases && leases[id].expiresAt > later && lease.expiresAt > later
    ensures ExpiredLeases(leases[id := lease], later) == ExpiredLeases(leases, later)
    ensures id !in ExpiredLeases(leases, later)
  {
  }

  lemma PutAside<K, V>(m: map<K, V>, gone: set<K>, id: K, value: V)
    requires id !in gone
    ensures m[id := value] - gone == (m - gone)[id := value]
  {
  }

  /** Expiry does not see what an unexpired lease reports. */
  lemma RevalueThenExpire(ledger: Ledger, id: LeaseId, lease: LocalLease, later: nat)
    requires id in ledger.leases && ledger.leases[id].expiresAt > later && lease.expiresAt > later
    ensures Expire(ledger.(leases := ledger.leases[id := lease]), later)
         == Expire(ledger, later).(leases := Expire(ledger, later).leases[id := lease])
  {
    RevaluedExpires(ledger.leases, id, lease, later);
    PutAside(ledger.leases, ExpiredLeases(ledger.leases, later).Keys, id, lease);
  }

  /** What an accepted report leaves. */
  lemma UpdateIs(ledger: Ledger, id: LeaseId, total: nat, sequence: nat, now: nat)
    requires var standing := StandingOf(ledger, id);
             standing.Open? && Outlasts(standing, now) && Validate(standing.lease, total, sequence).Ok?
    ensures var lease := Reported(ledger.leases[id], total, sequence);
            Update(ledger, id, total, sequence, now).0
            == Expire(ledger, now).(leases := Expire(ledger, now).leases[id := lease])
  {
    ExpireKeepsLive(ledger, now, id, ledger.leases[id]);
  }

  /** Reporting early and expiring later is reporting later. */
  lemma UpdateLater(ledger: Ledger, id: LeaseId, total: nat, sequence: nat, now: nat, later: nat)
    requires now <= later
    requires var standing := StandingOf(ledger, id);
             standing.Open? && Outlasts(standing, later) && Validate(standing.lease, total, sequence).Ok?
    ensures Expire(Update(ledger, id, total, sequence, now).0, later) == Update(ledger, id, total, sequence, later).0
  {
    var lease := Reported(ledger.leases[id], total, sequence);
    UpdateIs(ledger, id, total, sequence, now);
    UpdateIs(ledger, id, total, sequence, later);
    ExpireKeepsLive(ledger, now, id, ledger.leases[id]);
    RevalueThenExpire(Expire(ledger, now), id, lease, later);
    ExpireTwice(ledger, now, later);
  }

  // ---------- a settlement, and then expiry ----------

  lemma WithoutOne(leases: map<LeaseId, LocalLease>, id: LeaseId, later: nat)
    requires id in leases && leases[id].expiresAt > later
    ensures ExpiredLeases(leases - {id}, later) == ExpiredLeases(leases, later)
    ensures id !in ExpiredLeases(leases, later)
  {
  }

  lemma EitherOrder<K, V>(a: map<K, V>, b: map<K, V>)
    requires a.Keys !! b.Keys
    ensures a + b == b + a
  {
  }

  /** Settling a lease and settling others can be exchanged. */
  lemma RetireEitherOrder(ledger: Ledger, a: map<LeaseId, LocalLease>, b: map<LeaseId, LocalLease>)
    requires a.Keys !! b.Keys
    ensures Retire(Retire(ledger, a), b) == Retire(Retire(ledger, b), a)
  {
    EitherOrder(a, b);
    RetireUnion(ledger, a, b, a + b);
    RetireUnion(ledger, b, a, a + b);
  }

  lemma RecordThenRetain(
      completed: map<LeaseId, CompletedLease>, id: LeaseId, early: CompletedLease, late: CompletedLease, later: nat)
    requires early.expiresAt > later && early.consumedTotal == late.consumedTotal && early.sequence == late.sequence
    ensures SameRecords(RetainedRecords(completed[id := early], later), RetainedRecords(completed, later)[id := late])
  {
  }

  lemma SettleThenExpire(ledger: Ledger, id: LeaseId, total: nat, sequence: nat, now: nat, later: nat)
    requires id in ledger.leases && ledger.leases[id].expiresAt > later && later < now + RETENTION
    ensures id in Expire(ledger, later).leases
    ensures Alike(Expire(Settle(ledger, id, total, sequence, now), later),
              Settle(Expire(ledger, later), id, total, sequence, later))
  {
    var gone, others := map[id := ledger.leases[id].(consumedTotal := total)], ExpiredLeases(ledger.leases, later);
    WithoutOne(ledger.leases, id, later);
    assert gone.Keys == {id} && Retire(ledger, gone).leases == ledger.leases - {id};
    RetireEitherOrder(ledger, gone, others);
    RecordThenRetain(ledger.completed, id, CompletedLease(total, sequence, now + RETENTION),
      CompletedLease(total, sequence, later + RETENTION), later);
  }

  /** Finishing early and expiring later is finishing later, but for the time of the record. */
  lemma FinishLater(ledger: Ledger, id: LeaseId, total: nat, sequence: nat, now: nat, later: nat)
    requires Filed(ledger) && now <= later < now + RETENTION
    requires var standing := StandingOf(ledger, id);
             standing.Open? && Outlasts(standing, later) && Validate(standing.lease, total, sequence).Ok?
    ensures Alike(Expire(Finish(ledger, id, total, sequence, now).0, later),
        Finish(ledger, id, total, sequence, later).0)
  {
    FinishOpen(ledger, id, total, sequence, now);
    FinishOpen(ledger, id, total, sequence, later);
    SettleThenExpire(Expire(ledger, now), id, total, sequence, now, later);
    ExpireTwice(ledger, now, later);
  }

  // ---------- one backend, early or late ----------

  /** A backend that has taken the request only cleans up. */
  lemma PollAgain(ledger: Ledger, id: LeaseId, resource: QuotaResource, job: Job, answer: bool, now: nat)
    requires Filed(ledger) && Timely(job, now) && Reached(ledger, Local(id, resource), job)
    ensures Poll(ledger, Local(id, resource), job, answer, now) == (Expire(ledger, now), Ok(()))
  {
    var total := TotalFor(job.next, resource).value;
    if job.request.UpdateRequest? {
      PollIsUpdate(ledger, id, resource, job, answer, now, total);
      UpdateRepeats(ledger, id, total, job.sequence + 1, now);
    } else {
      PollIsFinish(ledger, id, resource, job, answer, now, total);
      FinishRepeats(ledger, id, total, job.sequence + 1, now);
    }
  }

  lemma UpdatePollLater(
      ledger: Ledger, id: LeaseId, resource: QuotaResource, job: Job, answer: bool, now: nat, later: nat, total: nat)
    requires now <= later && job.request.UpdateRequest? && TotalFor(job.next, resource) == Some(total)
    requires var standing := StandingOf(ledger, id);
             && standing.Open? && Outlasts(standing, later)
             && Validate(standing.lease, total, job.sequence + 1).Ok?
    ensures Expire(Poll(ledger, Local(id, resource), job, answer, now).0, later)
         == Poll(ledger, Local(id, resource), job, answer, later).0
  {
    PollIsUpdate(ledger, id, resource, job, answer, now, total);
    PollIsUpdate(ledger, id, resource, job, answer, later, total);
    UpdateLater(ledger, id, total, job.sequence + 1, now, later);
  }

  lemma FinishPollLater(
      ledger: Ledger, id: LeaseId, resource: QuotaResource, job: Job, answer: bool, now: nat, later: nat, total: nat)
    requires Filed(ledger) && now <= later < now + RETENTION
    requires job.request.FinishRequest? && TotalFor(job.next, resource) == Some(total)
    requires var standing := StandingOf(ledger, id);
             && standing.Open? && Outlasts(standing, later)
             && Validate(standing.lease, total, job.sequence + 1).Ok?
    ensures Alike(Expire(Poll(ledger, Local(id, resource), job, answer, now).0, later),
              Poll(ledger, Local(id, resource), job, answer, later).0)
  {
    PollIsFinish(ledger, id, resource, job, answer, now, total);
    PollIsFinish(ledger, id, resource, job, answer, later, total);
    FinishLater(ledger, id, total, job.sequence + 1, now, later);
  }

  /** Asking a local backend early and expiring later is asking it later. */
  lemma PollLater(ledger: Ledger, id: LeaseId, resource: QuotaResource, job: Job, answer: bool, now: nat, later: nat)
    requires Filed(ledger) && now <= later && Timely(job, now) && Timely(job, later) && WellPosed(job)
    requires Underway(ledger, Local(id, resource), job)
    ensures Alike(Expire(Poll(ledger, Local(id, resource), job, answer, now).0, later),
              Poll(ledger, Local(id, resource), job, answer, later).0)
  {
    if Reached(ledger, Local(id, resource), job) {
      PollAgain(ledger, id, resource, job, answer, now);
      PollAgain(ledger, id, resource, job, answer, later);
      ExpireTwice(ledger, now, later);
    } else {
      NextIsValid(StandingOf(ledger, id), resource, job);
      var total := TotalFor(job.next, resource).value;
      if job.request.UpdateRequest? {
        UpdatePollLater(ledger, id, resource, job, answer, now, later, total);
      } else {
        FinishPollLater(ledger, id, resource, job, answer, now, later, total);
      }
    }
  }

  /** A local backend cleans up before it answers, so cleaning up beforehand makes no difference. */
  lemma PollExpired(ledger: Ledger, id: LeaseId, resource: QuotaResource, job: Job, answer: bool, now: nat)
    requires TotalFor(job.next, resource).Some?
    ensures Poll(Expire(ledger, now), Local(id, resource), job, answer, now)
         == Poll(ledger, Local(id, resource), job, answer, now)
  {
    var total := TotalFor(job.next, resource).value;
    ExpireTwice(ledger, now, now);
    if job.request.UpdateRequest? {
      PollIsUpdate(ledger, id, resource, job, answer, now, total);
      PollIsUpdate(Expire(ledger, now), id, resource, job, answer, now, total);
    } else {
      PollIsFinish(ledger, id, resource, job, answer, now, total);
      PollIsFinish(Expire(ledger, now), id, resource, job, answer, now, total);
    }
  }

  // ---------- one backend, on ledgers that are alike ----------

  /** Ledgers that are alike with nothing to clean up at `now`, where the backend has come equally far. */
  ghost predicate Twins(a: Ledger, b: Ledger, now: nat) {
    Alike(a, b) && Fresh(a, now) && Fresh(b, now) && Filed(a) && Filed(b)
  }

  lemma UpdateTwins(a: Ledger, b: Ledger, id: LeaseId, total: nat, sequence: nat, now: nat)
    requires Twins(a, b, now)
    ensures Update(a, id, total, sequence, now).1 == Update(b, id, total, sequence, now).1
    ensures Alike(Update(a, id, total, sequence, now).0, Update(b, id, total, sequence, now).0)
  {
    FreshIsFixed(a, now);
    FreshIsFixed(b, now);
  }

  lemma FinishTwins(a: Ledger, b: Ledger, id: LeaseId, total: nat, sequence: nat, now: nat)
    requires Twins(a, b, now)
    ensures Finish(a, id, total, sequence, now).1 == Finish(b, id, total, sequence, now).1
    ensures Alike(Finish(a, id, total, sequence, now).0, Finish(b, id, total, sequence, now).0)
  {
    FreshIsFixed(a, now);
    FreshIsFixed(b, now);
  }

  lemma PollTwins(
      a: Ledger, b: Ledger, id: LeaseId, resource: QuotaResource, job: Job, answer: bool, now: nat)
    requires Twins(a, b, now)
    ensures Poll(a, Local(id, resource), job, answer, now).1 == Poll(b, Local(id, resource), job, answer, now).1
    ensures Alike(Poll(a, Local(id, resource), job, answer, now).0, Poll(b, Local(id, resource), job, answer, now).0)
  {
    if TotalFor(job.next, resource).Some? {
      var total := TotalFor(job.next, resource).value;
      if job.request.UpdateRequest? {
        PollIsUpdate(a, id, resource, job, answer, now, total);
        PollIsUpdate(b, id, resource, job, answer, now, total);
        UpdateTwins(a, b, id, total, job.sequence + 1, now);
      } else {
        PollIsFinish(a, id, resource, job, answer, now, total);
        PollIsFinish(b, id, resource, job, answer, now, total);
        FinishTwins(a, b, id, total, job.sequence + 1, now);
      }
    }
  }

  lemma UpdateIsFresh(ledger: Ledger, id: LeaseId, total: nat, sequence: nat, now: nat)
    ensures Update(ledger, id, total, sequence, now).1.Ok? ==> Fresh(Update(ledger, id, total, sequence, now).0, now)
  {
    ExpireIsFresh(ledger, now);
  }

  lemma FinishIsFresh(ledger: Ledger, id: LeaseId, total: nat, sequence: nat, now: nat)
    ensures Finish(ledger, id, total, sequence, now).1.Ok? ==> Fresh(Finish(ledger, id, total, sequence, now).0, now)
  {
    ExpireIsFresh(ledger, now);
  }

  /** A local backend that answers leaves nothing to clean up. */
  lemma PollIsFresh(ledger: Ledger, id: LeaseId, resource: QuotaResource, job: Job, answer: bool, now: nat)
    ensures var (after, r) := Poll(ledger, Local(id, resource), job, answer, now);
            r.Ok? ==> Fresh(after, now)
  {
    if TotalFor(job.next, resource).Some? {
      var total := TotalFor(job.next, resource).value;
      if job.request.UpdateRequest? {
        PollIsUpdate(ledger, id, resource, job, answer, now, total);
        UpdateIsFresh(ledger, id, total, job.sequence + 1, now);
      } else {
        PollIsFinish(ledger, id, resource, job, answer, now, total);
        FinishIsFresh(ledger, id, total, job.sequence + 1, now);
      }
    }
  }

  // ---------- all backends ----------

  /** One more backend of a call. */
  lemma SendNext(
      ledger: Ledger, backends: seq<Backend>, job: Job, answers: seq<bool>, now: nat, n: nat)
    requires n < |backends| == |answers|
    ensures var (before, r) := SendAll(ledger, backends[..n], job, answers[..n], now);
            SendAll(ledger, backends[..n + 1], job, answers[..n + 1], now)
            == if r.Err? then (before, r) else Poll(before, backends[n], job, answers[n], now)
  {
    assert backends[..n + 1][..n] == backends[..n] && answers[..n + 1][..n] == answers[..n];
  }

  lemma PollRemote(ledger: Ledger, job: Job, answer: bool, now: nat)
    ensures Poll(ledger, Remote, job, answer, now) == (ledger, if answer then Ok(()) else Err(NetworkError))
  {
  }

  lemma AlikeThrough(a: Ledger, b: Ledger, c: Ledger)
    requires Alike(a, b) && Alike(b, c)
    ensures Alike(a, c) && Alike(b, a)
  {
  }

  lemma ExpiredTwins(p: Ledger, q: Ledger, later: nat)
    requires Filed(p) && Filed(q) && Alike(Expire(p, later), Expire(q, later))
    ensures Twins(Expire(p, later), Expire(q, later), later)
  {
    ExpireKeepsFiled(p, later);
    ExpireKeepsFiled(q, later);
    ExpireIsFresh(p, later);
    ExpireIsFresh(q, later);
  }

  lemma FreshPoll(ledger: Ledger, id: LeaseId, resource: QuotaResource, job: Job, answer: bool, now: nat)
    requires Filed(ledger) && Timely(job, now) && WellPosed(job) && Underway(ledger, Local(id, resource), job)
    ensures var after := Poll(ledger, Local(id, resource), job, answer, now).0;
            Fresh(after, now) && Expire(after, now) == after
  {
    LocalAnswers(ledger, id, resource, job, answer, now);
    PollIsFresh(ledger, id, resource, job, answer, now);
    FreshIsFixed(Poll(ledger, Local(id, resource), job, answer, now).0, now);
  }

  lemma TotalOfNext(ledger: Ledger, id: LeaseId, resource: QuotaResource, job: Job)
    requires WellPosed(job) && Underway(ledger, Local(id, resource), job)
    ensures TotalFor(job.next, resource).Some?
  {
  }

  /** Asking early on one of two ledgers and late on the other, which are alike once cleaned up late. */
  lemma AskedLater(
      p: Ledger, q: Ledger, id: LeaseId, resource: QuotaResource, job: Job, answer: bool, now: nat, later: nat)
    requires Filed(p) && Filed(q) && now <= later && Timely(job, now) && Timely(job, later) && WellPosed(job)
    requires Underway(p, Local(id, resource), job) && Underway(q, Local(id, resource), job)
    requires Alike(Expire(p, later), Expire(q, later))
    ensures Alike(Expire(Poll(p, Local(id, resource), job, answer, now).0, later),
              Expire(Poll(q, Local(id, resource), job, answer, later).0, later))
  {
    TotalOfNext(p, id, resource, job);
    PollLater(p, id, resource, job, answer, now, later);
    PollExpired(p, id, resource, job, answer, later);
    PollExpired(q, id, resource, job, answer, later);
    ExpiredTwins(p, q, later);
    PollTwins(Expire(p, later), Expire(q, later), id, resource, job, answer, later);
    FreshPoll(q, id, resource, job, answer, later);
    AlikeThrough(Expire(Poll(p, Local(id, resource), job, answer, now).0, later),
      Poll(p, Local(id, resource), job, answer, later).0, Poll(q, Local(id, resource), job, answer, later).0);
  }

  /** A call that succeeds is the same early and late, once cleaned up late. */
  lemma {:induction false} SuccessLater(
      ledger: Ledger, backends: seq<Backend>, job: Job, answers: seq<bool>, now: nat, later: nat, n: nat)
    requires Spread(ledger, backends, [], job) && WellPosed(job) && DistinctBackends(backends)
    requires now <= later && Timely(job, now) && Timely(job, later)
    requires n <= |backends| == |answers| && RemotesConfirm(backends[..n], answers[..n])
    ensures var early := SendAll(ledger, backends[..n], job, answers[..n], now).0;
            var late := SendAll(ledger, backends[..n], job, answers[..n], later).0;
            Alike(Expire(early, later), Expire(late, later))
  {
    if n > 0 {
      var m := n - 1;
      assert backends[..n][..m] == backends[..m] && answers[..n][..m] == answers[..m];
      RemotesSplit(backends[..n], answers[..n]);
      SuccessLater(ledger, backends, job, answers, now, later, m);
      SendSome(ledger, now, backends, job, answers, now, m);
      SendSome(ledger, later, backends, job, answers, later, m);
      SendNext(ledger, backends, job, answers, now, m);
      SendNext(ledger, backends, job, answers, later, m);
      var p := SendAll(ledger, backends[..m], job, answers[..m], now).0;
      var q := SendAll(ledger, backends[..m], job, answers[..m], later).0;
      match backends[m]
      case Local(id, resource) => AskedLater(p, q, id, resource, job, answers[m], now, later);
      case Remote =>
        PollRemote(p, job, answers[m], now);
        PollRemote(q, job, answers[m], later);
    }
  }

  // ---------- sending again ----------

  predicate HasLocal(backends: seq<Backend>) {
    exists i :: 0 <= i < |backends| && backends[i].Local?
  }

  lemma HasLocalSplit(backends: seq<Backend>)
    requires backends != []
    ensures HasLocal(backends) <==> HasLocal(backends[..|backends| - 1]) || backends[|backends| - 1].Local?
  {
    var last := |backends| - 1;
    assert forall i :: 0 <= i < last ==> backends[..last][i] == backends[i];
  }

  lemma ReachedAfterExpiry(ledger: Ledger, id: LeaseId, resource: QuotaResource, job: Job, now: nat)
    requires Filed(ledger) && now <= job.horizon && Reached(ledger, Local(id, resource), job)
    ensures Filed(Expire(ledger, now)) && Reached(Expire(ledger, now), Local(id, resource), job)
  {
    ExpireKeepsFiled(ledger, now);
    ExpireSpares(ledger, now, id);
  }

  /** A backend that has taken the request is asked again, before or after the cleaning up. */
  lemma PollAgainLater(
      start: Ledger, ledger: Ledger, id: LeaseId, resource: QuotaResource, job: Job, answer: bool, later: nat)
    requires Filed(start) && Timely(job, later) && Reached(start, Local(id, resource), job)
    requires ledger == start || ledger == Expire(start, later)
    ensures Poll(ledger, Local(id, resource), job, answer, later) == (Expire(start, later), Ok(()))
  {
    if ledger == start {
      PollAgain(start, id, resource, job, answer, later);
    } else {
      ReachedAfterExpiry(start, id, resource, job, later);
      PollAgain(Expire(start, later), id, resource, job, answer, later);
      ExpireTwice(start, later, later);
    }
  }

  /** Sending a request again that every backend has taken cleans up and does nothing else. */
  lemma {:induction false} RepeatAll(
      ledger: Ledger, backends: seq<Backend>, job: Job, answers: seq<bool>, later: nat, n: nat)
    requires Filed(ledger) && Timely(job, later) && n <= |backends| == |answers|
    requires RemotesConfirm(backends[..n], answers[..n])
    requires forall i :: 0 <= i < n ==> Reached(ledger, backends[i], job)
    ensures SendAll(ledger, backends[..n], job, answers[..n], later)
         == (if HasLocal(backends[..n]) then Expire(ledger, later) else ledger, Ok(()))
  {
    if n > 0 {
      var m := n - 1;
      assert backends[..n][..m] == backends[..m] && answers[..n][..m] == answers[..m];
      RemotesSplit(backends[..n], answers[..n]);
      HasLocalSplit(backends[..n]);
      RepeatAll(ledger, backends, job, answers, later, m);
      SendNext(ledger, backends, job, answers, later, m);
      var before := SendAll(ledger, backends[..m], job, answers[..m], later).0;
      match backends[m]
      case Local(id, resource) => PollAgainLater(ledger, before, id, resource, job, answers[m], later);
      case Remote => PollRemote(before, job, answers[m], later);
    }
  }

  lemma LocalIgnoresAnswer(ledger: Ledger, id: LeaseId, resource: QuotaResource, job: Job, a: bool, b: bool, now: nat)
    ensures Poll(ledger, Local(id, resource), job, a, now) == Poll(ledger, Local(id, resource), job, b, now)
  {
  }

  lemma {:induction false} SameAnswers(
      ledger: Ledger, backends: seq<Backend>, job: Job, a: seq<bool>, b: seq<bool>, now: nat, n: nat)
    requires n <= |backends| == |a| == |b|
    requires RemotesConfirm(backends[..n], a[..n]) && RemotesConfirm(backends[..n], b[..n])
    ensures SendAll(ledger, backends[..n], job, a[..n], now) == SendAll(ledger, backends[..n], job, b[..n], now)
  {
    if n > 0 {
      var m := n - 1;
      assert backends[..n][..m] == backends[..m] && a[..n][..m] == a[..m] && b[..n][..m] == b[..m];
      RemotesSplit(backends[..n], a[..n]);
      RemotesSplit(backends[..n], b[..n]);
      SameAnswers(ledger, backends, job, a, b, now, m);
      SendNext(ledger, backends, job, a, now, m);
      SendNext(ledger, backends, job, b, now, m);
      var before := SendAll(ledger, backends[..m], job, a[..m], now).0;
      match backends[m]
      case Local(id, resource) => LocalIgnoresAnswer(before, id, resource, job, a[m], b[m], now);
      case Remote =>
    }
  }

  // ---------- the retry ----------

  ghost predicate Close(a: Ledger, b: Ledger, now: nat) {
    a == b || Twins(a, b, now)
  }

  /** Everything was taken at first: sending again only cleans up. */
  lemma CompleteRetried(
      ledger: Ledger, first: Ledger, backends: seq<Backend>, job: Job, answers: seq<bool>, again: seq<bool>,
      now: nat, later: nat, n: nat)
    requires Spread(ledger, backends, [], job) && WellPosed(job) && DistinctBackends(backends)
    requires Timely(job, now) && Timely(job, later) && 0 < n <= |backends| == |answers| == |again|
    requires RemotesConfirm(backends[..n], answers[..n]) && RemotesConfirm(backends[..n], again[..n])
    requires backends[n - 1].Local? && first == SendAll(ledger, backends[..n], job, answers[..n], now).0
    ensures Filed(first) && SendAll(first, backends[..n], job, again[..n], later) == (Expire(first, later), Ok(()))
  {
    SendSome(ledger, now, backends, job, answers, now, n);
    assert forall i :: 0 <= i < n ==> backends[i] in backends[..n];
    assert backends[..n][n - 1].Local?;
    RepeatAll(first, backends, job, again, later, n);
  }

  /** A call that ends with a local backend leaves nothing to clean up. */
  lemma CompleteOnce(
      ledger: Ledger, backends: seq<Backend>, job: Job, again: seq<bool>, later: nat, n: nat)
    requires Spread(ledger, backends, [], job) && WellPosed(job) && DistinctBackends(backends)
    requires Timely(job, later) && 0 < n <= |backends| == |again| && RemotesConfirm(backends[..n], again[..n])
    requires backends[n - 1].Local?
    ensures var (once, r) := SendAll(ledger, backends[..n], job, again[..n], later);
            r.Ok? && Filed(once) && Expire(once, later) == once
  {
    var m := n - 1;
    var id, resource := backends[m].id, backends[m].resource;
    SendSome(ledger, later, backends, job, again, later, n);
    SendSome(ledger, later, backends, job, again, later, m);
    SendNext(ledger, backends, job, again, later, m);
    FreshPoll(SendAll(ledger, backends[..m], job, again[..m], later).0, id, resource, job, again[m], later);
  }

  /** The last backend is local and all before it took the request at first. */
  lemma RetryComplete(
      ledger: Ledger, first: Ledger, once: Ledger, backends: seq<Backend>, job: Job, answers: seq<bool>,
      again: seq<bool>, now: nat, later: nat, n: nat)
    requires Spread(ledger, backends, [], job) && WellPosed(job) && DistinctBackends(backends)
    requires now <= later && Timely(job, now) && Timely(job, later) && 0 < n <= |backends| == |answers| == |again|
    requires RemotesConfirm(backends[..n], answers[..n]) && RemotesConfirm(backends[..n], again[..n])
    requires backends[n - 1].Local? && first == SendAll(ledger, backends[..n], job, answers[..n], now).0
    requires once == SendAll(ledger, backends[..n], job, again[..n], later).0
    ensures Twins(Expire(first, later), once, later)
  {
    CompleteRetried(ledger, first, backends, job, answers, again, now, later, n);
    CompleteOnce(ledger, backends, job, again, later, n);
    SuccessLater(ledger, backends, job, answers, now, later, n);
    SameAnswers(ledger, backends, job, answers, again, later, n);
    ExpiredTwins(first, once, later);
  }

  /** One more local backend on ledgers that are close. */
  lemma CloseNext(
      a: Ledger, b: Ledger, id: LeaseId, resource: QuotaResource, job: Job, answer: bool, later: nat)
    requires Close(a, b, later) && Filed(a) && Filed(b) && Timely(job, later) && WellPosed(job)
    requires Underway(a, Local(id, resource), job) && Underway(b, Local(id, resource), job)
    ensures Close(Poll(a, Local(id, resource), job, answer, later).0,
        Poll(b, Local(id, resource), job, answer, later).0,
              later)
  {
    if a != b {
      PollTwins(a, b, id, resource, job, answer, later);
      FreshPoll(a, id, resource, job, answer, later);
      FreshPoll(b, id, resource, job, answer, later);
      PollKeepsFiled(a, Local(id, resource), job, answer, later);
      PollKeepsFiled(b, Local(id, resource), job, answer, later);
    }
  }

  /** The next backend is asked on two ledgers from which the call has gone equally well so far. */
  lemma RetryNext(
      p: Ledger, q: Ledger, backends: seq<Backend>, job: Job, again: seq<bool>, later: nat, m: nat)
    requires Spread(p, backends, [], job) && Spread(q, backends, [], job)
    requires WellPosed(job) && DistinctBackends(backends) && Timely(job, later) && m < |backends| == |again|
    requires RemotesConfirm(backends[..m + 1], again[..m + 1])
    requires Close(SendAll(p, backends[..m], job, again[..m], later).0,
               SendAll(q, backends[..m], job, again[..m], later).0, later)
    ensures Close(SendAll(p, backends[..m + 1], job, again[..m + 1], later).0,
              SendAll(q, backends[..m + 1], job, again[..m + 1], later).0, later)
  {
    assert backends[..m + 1][..m] == backends[..m] && again[..m + 1][..m] == again[..m];
    RemotesSplit(backends[..m + 1], again[..m + 1]);
    SendSome(p, later, backends, job, again, later, m);
    SendSome(q, later, backends, job, again, later, m);
    SendNext(p, backends, job, again, later, m);
    SendNext(q, backends, job, again, later, m);
    var a := SendAll(p, backends[..m], job, again[..m], later).0;
    var b := SendAll(q, backends[..m], job, again[..m], later).0;
    match backends[m]
    case Local(id, resource) => CloseNext(a, b, id, resource, job, again[m], later);
    case Remote =>
      PollRemote(a, job, again[m], later);
      PollRemote(b, job, again[m], later);
  }

  /** Where the request did not reach backend `m` at first, that backend saw nothing of it. */
  lemma FirstWithout(
      ledger: Ledger, backends: seq<Backend>, job: Job, answers: seq<bool>, now: nat, m: nat)
    requires m < |backends| == |answers|
    requires SendAll(ledger, backends[..m], job, answers[..m], now).1.Err? || backends[m].Remote?
    ensures SendAll(ledger, backends[..m + 1], job, answers[..m + 1], now).0
         == SendAll(ledger, backends[..m], job, answers[..m], now).0
  {
    SendNext(ledger, backends, job, answers, now, m);
    if backends[m].Remote? {
      PollRemote(SendAll(ledger, backends[..m], job, answers[..m], now).0, job, answers[m], now);
    }
  }

  lemma {:induction false} RetrySome(
      ledger: Ledger, backends: seq<Backend>, job: Job, answers: seq<bool>, again: seq<bool>, now: nat, later: nat,
      n: nat) returns (first: Ledger)
    requires Spread(ledger, backends, [], job) && WellPosed(job) && DistinctBackends(backends)
    requires now <= later && Timely(job, now) && Timely(job, later) && n <= |backends| == |answers| == |again|
    requires RemotesConfirm(backends[..n], again[..n])
    ensures first == SendAll(ledger, backends[..n], job, answers[..n], now).0 && Spread(first, backends, [], job)
    ensures Close(SendAll(first, backends[..n], job, again[..n], later).0,
              SendAll(ledger, backends[..n], job, again[..n], later).0, later)
  {
    first := ledger;
    if n > 0 {
      var m := n - 1;
      assert backends[..n][..m] == backends[..m] && answers[..n][..m] == answers[..m] && again[..n][..m] == again[..m];
      RemotesSplit(backends[..n], answers[..n]);
      RemotesSplit(backends[..n], again[..n]);
      SendSome(ledger, now, backends, job, answers, now, m);
      if SendAll(ledger, backends[..m], job, answers[..m], now).1.Ok? && backends[m].Local? {
        SendSome(ledger, now, backends, job, answers, now, n);
        first := SendAll(ledger, backends[..n], job, answers[..n], now).0;
        CompleteRetried(ledger, first, backends, job, answers, again, now, later, n);
        RetryComplete(ledger, first, SendAll(ledger, backends[..n], job, again[..n], later).0, backends, job, answers,
          again, now, later, n);
      } else {
        first := RetrySome(ledger, backends, job, answers, again, now, later, m);
        FirstWithout(ledger, backends, job, answers, now, m);
        RetryNext(first, ledger, backends, job, again, later, m);
      }
    }
  }

  /** Failing after any backends took the request and sending it again at any later time, up to which no
      lease of it expires and no record lapses, leaves the ledger that one call made at that time leaves, but
      for the times at which records lapse. */
  lemma RetryMatchesUninterrupted(
      ledger: Ledger, backends: seq<Backend>, job: Job, answers: seq<bool>, again: seq<bool>, now: nat, later: nat)
    requires Filed(ledger) && WellPosed(job) && DistinctBackends(backends)
    requires forall b :: b in backends ==> Underway(ledger, b, job)
    requires now <= later && Timely(job, now) && Timely(job, later) && |answers| == |backends| == |again|
    requires RemotesConfirm(backends, again)
    ensures var first := SendAll(ledger, backends, job, answers, now).0;
            var retried := SendAll(first, backends, job, again, later);
            var once := SendAll(ledger, backends, job, again, later);
            retried.1.Ok? && once.1.Ok? && Alike(retried.0, once.0)
  {
    var n := |backends|;
    assert backends[..n] == backends && answers[..n] == answers && again[..n] == again;
    var first := RetrySome(ledger, backends, job, answers, again, now, later, n);
    SendSome(first, later, backends, job, again, later, n);
    SendSome(ledger, later, backends, job, again, later, n);
  }
}
