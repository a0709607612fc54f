/** `DefaultRateLimitAPI::reserve` as a whole: from rules and a request to a lease or a refusal. */
module QuotaRequests {
  import opened QuotaTypes
  import opened QuotaLedger
  import opened LedgerLaws
  import opened ReserveLaws
  import opened QuotaReservation
  import opened CounterRules
  import opened QuotaGrants
  import opened LocalQuotaCounters
  import opened LeaseClient
  import opened LeaseStandings
  import opened LeaseLaws
  import opened LeaseProtocol
  import opened QuotaRules
  import opened QuotaApi
  import opened QuotaTurns

  /** What the limiter says when the quotas of global rules are reserved there. */
  datatype RemoteAnswer = Granted | Refused | Unreachable

  /** The parts of the counter keys that a request and a trigger fix, and the lease ids the call draws. */
  datatype Naming = Naming(dimension: TriggerEntry -> string, slot: TriggerEntry -> string,
    id: QuotaResource -> LeaseId)

  predicate UsesDistributed(entry: TriggerEntry) {
    entry.rule.kind.Global? && entry.trigger.resource.Some?
  }

  predicate UsesLocal(entry: TriggerEntry) {
    entry.rule.kind.Local? || (entry.rule.kind.Global? && entry.trigger.failover.FailoverLocal?)
  }

  /** Reserved locally because the limiter could not be asked, or in the first place. */
  predicate FallsBack(entry: TriggerEntry) {
    UsesDistributed(entry) && entry.trigger.failover.FailoverLocal?
  }

  predicate StaysLocal(entry: TriggerEntry) {
    !UsesDistributed(entry) && UsesLocal(entry)
  }

  function LimitOf(entry: TriggerEntry, naming: Naming): Trigger {
    var resource := match entry.trigger.resource
      case None => TriggerResource.Other
      case Some(Qps) => TriggerResource.Qps
      case Some(Token) => TriggerResource.Token
      case Some(Concurrency) => TriggerResource.Concurrency;
    Trigger(resource, entry.trigger.amounts, entry.trigger.concurrencyMax, naming.dimension(entry), naming.slot(entry))
  }

  function QuotaFor(entry: TriggerEntry, wanted: QuotaAmount, naming: Naming): Quota {
    Quota(LimitOf(entry, naming), wanted.amount, naming.id(wanted.resource))
  }

  type Selection = map<QuotaResource, TriggerEntry>

  predicate Takes(selected: Selection, wanted: QuotaAmount, test: TriggerEntry -> bool) {
    wanted.resource in selected && test(selected[wanted.resource])
  }

  /** The quotas to reserve whose selected trigger passes the test, in the order of the request. */
  function QuotasWhere(wanted: seq<QuotaAmount>, selected: Selection, test: TriggerEntry -> bool, naming: Naming)
    : seq<Quota>
  {
    if wanted == [] then []
    else
      var last := wanted[|wanted| - 1];
      var before := QuotasWhere(wanted[..|wanted| - 1], selected, test, naming);
      if Takes(selected, last, test) then before + [QuotaFor(selected[last.resource], last, naming)] else before
  }

  predicate AnyDistributed(wanted: seq<QuotaAmount>, selected: Selection) {
    exists i :: 0 <= i < |wanted| && Takes(selected, wanted[i], UsesDistributed)
  }

  /** What the local counter is asked for: the quotas of an unreachable limiter that fall back, and then
      those of local rules. */
  function LocalQuotas(wanted: seq<QuotaAmount>, selected: Selection, naming: Naming, remote: RemoteAnswer)
    : seq<Quota>
  {
    (if remote.Unreachable? then QuotasWhere(wanted, selected, FallsBack, naming) else [])
    + QuotasWhere(wanted, selected, StaysLocal, naming)
  }

  ghost function ReserveSelected(
      ledger: Ledger, wanted: seq<QuotaAmount>, selected: Selection, naming: Naming, remote: RemoteAnswer,
      deadline: Option<nat>, now: nat)
    : (Ledger, Option<seq<Backend>>)
  {
    var distributed := AnyDistributed(wanted, selected);
    if distributed && remote.Refused? then (ledger, None)
    else
      var (after, granted) := ReserveAll(ledger, LocalQuotas(wanted, selected, naming, remote), deadline, now);
      (after, if granted.None? then None else Some(BackendsOf(distributed && remote.Granted?, granted.value)))
  }

  // ---------- what the selection gives ----------

  /** Lease ids drawn for different resources differ, and none was drawn before. */
  ghost predicate UnusedIds(ledger: Ledger, naming: Naming) {
    && (forall r, s :: r != s ==> naming.id(r) != naming.id(s))
    && (forall r :: naming.id(r) !in ledger.leases && naming.id(r) !in ledger.retired)
  }

  predicate Selected(selected: Selection) {
    forall r :: r in selected ==> selected[r].trigger.resource == Some(r)
  }

  /** A quota stands for one of the wanted ones, through its selected trigger. */
  predicate Stands(
      quota: Quota, wanted: seq<QuotaAmount>, selected: Selection, test: TriggerEntry -> bool, naming: Naming, i: int) {
    && 0 <= i < |wanted| && Takes(selected, wanted[i], test)
    && quota == QuotaFor(selected[wanted[i].resource], wanted[i], naming)
  }

  lemma {:induction false} QuotasStand(
      wanted: seq<QuotaAmount>, selected: Selection, test: TriggerEntry -> bool, naming: Naming)
    requires Selected(selected)
    requires forall i, j :: 0 <= i < j < |wanted| ==> wanted[i].resource != wanted[j].resource
    requires forall r, s :: r != s ==> naming.id(r) != naming.id(s)
    ensures var quotas := QuotasWhere(wanted, selected, test, naming);
            && DistinctIds(quotas)
            && (forall quota :: quota in quotas ==> exists i :: Stands(quota, wanted, selected, test, naming, i))
  {
    if wanted != [] {
      var init, last := wanted[..|wanted| - 1], wanted[|wanted| - 1];
      QuotasStand(init, selected, test, naming);
      var before := QuotasWhere(init, selected, test, naming);
      forall quota | quota in before
        ensures exists i :: Stands(quota, wanted, selected, test, naming, i)
        ensures quota.id != naming.id(last.resource)
      {
        var i :| Stands(quota, init, selected, test, naming, i);
        assert wanted[i].resource != last.resource;
        assert Stands(quota, wanted, selected, test, naming, i);
      }
      if Takes(selected, last, test) {
        assert Stands(QuotaFor(selected[last.resource], last, naming), wanted, selected, test, naming, |wanted| - 1);
      }
    }
  }

  predicate IsLocal(entry: TriggerEntry) {
    FallsBack(entry) || StaysLocal(entry)
  }

  /** The quotas asked of the local counter have leases of their own and stand for wanted ones. */
  lemma LocalQuotasStand(wanted: seq<QuotaAmount>, selected: Selection, naming: Naming, remote: RemoteAnswer)
    requires Selected(selected) && ValidAmounts(wanted)
    requires forall r, s :: r != s ==> naming.id(r) != naming.id(s)
    ensures var quotas := LocalQuotas(wanted, selected, naming, remote);
            && DistinctIds(quotas)
            && (forall quota :: quota in quotas ==> exists i :: Stands(quota, wanted, selected, IsLocal, naming, i))
  {
    var fallback := if remote.Unreachable? then QuotasWhere(wanted, selected, FallsBack, naming) else [];
    var local := QuotasWhere(wanted, selected, StaysLocal, naming);
    QuotasStand(wanted, selected, FallsBack, naming);
    QuotasStand(wanted, selected, StaysLocal, naming);
    forall quota | quota in fallback
      ensures exists i :: Stands(quota, wanted, selected, IsLocal, naming, i)
    {
      var i :| Stands(quota, wanted, selected, FallsBack, naming, i);
      assert Stands(quota, wanted, selected, IsLocal, naming, i);
    }
    forall quota | quota in local
      ensures exists i :: Stands(quota, wanted, selected, IsLocal, naming, i)
    {
      var i :| Stands(quota, wanted, selected, StaysLocal, naming, i);
      assert Stands(quota, wanted, selected, IsLocal, naming, i);
    }
    forall a, b | a in fallback && b in local
      ensures a.id != b.id
    {
      var i :| Stands(a, wanted, selected, FallsBack, naming, i);
      var j :| Stands(b, wanted, selected, StaysLocal, naming, j);
      assert wanted[i].resource != wanted[j].resource;
    }
    assert LocalQuotas(wanted, selected, naming, remote) == fallback + local;
  }

  lemma StandsIsRequested(wanted: seq<QuotaAmount>, selected: Selection, naming: Naming, quota: Quota, i: int)
    requires Selected(selected) && ValidAmounts(wanted) && Stands(quota, wanted, selected, IsLocal, naming, i)
    ensures !quota.trigger.resource.Other? && ResourceOf(quota.trigger) == wanted[i].resource
    ensures AmountFor(wanted, ResourceOf(quota.trigger)) == Some(quota.amount) && 0 < quota.amount <= U32_MAX
    ensures quota.id == naming.id(wanted[i].resource)
  {
    AmountOf(wanted, i);
  }

  /** What a valid request and the selection give the reservation: valid amounts under unused ids, each
      for a requested resource, and at most one that counts requests. */
  lemma LocalQuotasAreValid(
      ledger: Ledger, wanted: seq<QuotaAmount>, selected: Selection, naming: Naming, remote: RemoteAnswer,
      deadline: Option<nat>, now: nat)
    requires Selected(selected) && ValidAmounts(wanted) && UnusedIds(ledger, naming)
    requires deadline.Some? ==> now < deadline.value <= now + MAX_TTL
    ensures var quotas := LocalQuotas(wanted, selected, naming, remote);
            ValidRequest(ledger, quotas, deadline, now) && OneQps(quotas) && Requested(wanted, quotas)
  {
    var quotas := LocalQuotas(wanted, selected, naming, remote);
    LocalQuotasStand(wanted, selected, naming, remote);
    forall quota | quota in quotas
      ensures Admissible(ledger, quota.amount, deadline, quota.id, now)
      ensures !quota.trigger.resource.Other? && AmountFor(wanted, ResourceOf(quota.trigger)) == Some(quota.amount)
    {
      var i :| Stands(quota, wanted, selected, IsLocal, naming, i);
      StandsIsRequested(wanted, selected, naming, quota, i);
    }
    forall a, b | a in quotas && b in quotas && a.trigger.resource.Qps? && b.trigger.resource.Qps?
      ensures a == b
    {
      var i :| Stands(a, wanted, selected, IsLocal, naming, i);
      var j :| Stands(b, wanted, selected, IsLocal, naming, j);
      StandsIsRequested(wanted, selected, naming, a, i);
      StandsIsRequested(wanted, selected, naming, b, j);
      assert wanted[i].resource == wanted[j].resource;
    }
  }

  // ---------- from rules to leases ----------

  /** Every trigger of every rule names a window length once and stays below the limits. */
  ghost predicate SafeLimits(rules: seq<RateLimit>, naming: Naming, limits: Limits) {
    forall i, j :: 0 <= i < |rules| && 0 <= j < |rules[i].triggers| ==>
      var trigger := LimitOf(TriggerEntry(rules[i], rules[i].triggers[j]), naming);
      SafeTrigger(trigger) && WithinLimits(trigger, limits)
  }

  lemma SelectionIsForItsResource(request: QuotaRequest, rules: seq<RateLimit>, selected: Selection)
    requires Selects(request, rules, selected)
    ensures Selected(selected)
  {
    forall r | r in selected
      ensures selected[r].trigger.resource == Some(r)
    {
      SelectionIff(request, rules, selected, r);
    }
  }

  lemma SelectionIsSafe(
      request: QuotaRequest, rules: seq<RateLimit>, selected: Selection, naming: Naming, remote: RemoteAnswer,
      limits: Limits)
    requires Selects(request, rules, selected) && ValidAmounts(request.quotas) && SafeLimits(rules, naming, limits)
    requires forall r, s :: r != s ==> naming.id(r) != naming.id(s)
    ensures SafeQuotas(LocalQuotas(request.quotas, selected, naming, remote), limits)
  {
    SelectionIsForItsResource(request, rules, selected);
    forall r | r in selected
      ensures SafeTrigger(LimitOf(selected[r], naming)) && WithinLimits(LimitOf(selected[r], naming), limits)
    {
      SelectionIff(request, rules, selected, r);
    }
    LocalQuotasStand(request.quotas, selected, naming, remote);
    forall quota | quota in LocalQuotas(request.quotas, selected, naming, remote)
      ensures SafeTrigger(quota.trigger) && WithinLimits(quota.trigger, limits)
    {
      var i :| Stands(quota, request.quotas, selected, IsLocal, naming, i);
    }
  }

  /** What a refused call leaves: every lease it opened settled with the total it started from and all else
      as expiry left it; under safe rules the windows and slots are restored as well. */
  ghost predicate TakenBack(
      ledger: Ledger, after: Ledger, quotas: seq<Quota>, granted: seq<Quota>, deadline: nat, now: nat,
      rules: seq<RateLimit>, naming: Naming, limits: Limits) {
    && Undone(Expire(ledger, now), after, granted, Some(deadline))
    && (forall quota :: quota in granted ==> quota in quotas)
    && (Books(ledger, limits) && SafeLimits(rules, naming, limits) ==>
          Restored(Expire(ledger, now), after, granted))
  }

  /** From rules and a request to a lease or to nothing, whatever the rules. A lease that is handed out asks the
      remote limiter first and starts in step with the counter; a refusal leaves no lease of the call. */
  lemma RequestIsAllOrNothing(
      ledger: Ledger, clock: nat, request: QuotaRequest, rules: seq<RateLimit>, selected: Selection, naming: Naming,
      remote: RemoteAnswer, deadline: nat, now: nat, limits: Limits, horizon: nat)
    requires Sound(ledger, clock) && clock <= now <= horizon < deadline <= now + MAX_TTL
    requires Selects(request, rules, selected) && ValidAmounts(request.quotas) && UnusedIds(ledger, naming)
    ensures
      var (after, backends) := ReserveSelected(ledger, request.quotas, selected, naming, remote, Some(deadline), now);
      && (backends.Some? ==>
            && RemoteFirst(backends.value)
            && InStep(after, Client(InitialConsumptions(request.quotas), 0, false), request.quotas, backends.value,
                horizon))
      && (backends.None? ==>
            && (forall r :: naming.id(r) !in after.leases)
            && (after == ledger || exists granted ::
                  TakenBack(ledger, after, LocalQuotas(request.quotas, selected, naming, remote), granted, deadline,
                    now, rules, naming, limits)))
  {
    var quotas := LocalQuotas(request.quotas, selected, naming, remote);
    SelectionIsForItsResource(request, rules, selected);
    LocalQuotasAreValid(ledger, request.quotas, selected, naming, remote, Some(deadline), now);
    var distributed := AnyDistributed(request.quotas, selected);
    if !distributed || !remote.Refused? {
      if ReserveAll(ledger, quotas, Some(deadline), now).1.Some? {
        ReservedLeaseStartsInStep(ledger, clock, distributed && remote.Granted?, quotas, request.quotas, deadline, now,
          horizon);
      } else {
        FailedReserveLeavesNothingLive(ledger, clock, quotas, Some(deadline), now, limits);
        if SafeLimits(rules, naming, limits) {
          SelectionIsSafe(request, rules, selected, naming, remote, limits);
        }
        var after, granted := ReserveAll(ledger, quotas, Some(deadline), now).0,
          ReserveEach(ledger, quotas, Some(deadline), now).1;
        assert TakenBack(ledger, after, quotas, granted, deadline, now, rules, naming, limits);
      }
    }
  }

  /** The same call with anybody else using the counter before each reservation, each made at its own time:
      the leases opened when it is granted, or refused at any point, are in step with the counter. */
  lemma RequestAmongOthers(
      ledger: Ledger, clock: nat, request: QuotaRequest, rules: seq<RateLimit>, selected: Selection, naming: Naming,
      remote: RemoteAnswer, moments: seq<Moment>, horizon: nat)
    requires Filed(ledger) && UnusedIds(ledger, naming)
    requires Selects(request, rules, selected) && ValidAmounts(request.quotas)
    requires var quotas := LocalQuotas(request.quotas, selected, naming, remote);
             |moments| == |quotas| && PossibleMoments(ledger, clock, quotas, moments, horizon)
    ensures
      var quotas := LocalQuotas(request.quotas, selected, naming, remote);
      var (after, granted, fine) := ReserveAround(ledger, quotas, moments);
      var backends := BackendsOf(AnyDistributed(request.quotas, selected) && remote.Granted?, granted);
      && ValidQuotas(ledger, quotas) && Requested(request.quotas, quotas) && RemoteFirst(backends)
      && InStep(after, Client(InitialConsumptions(request.quotas), 0, false), request.quotas, backends, horizon)
  {
    var quotas := LocalQuotas(request.quotas, selected, naming, remote);
    SelectionIsForItsResource(request, rules, selected);
    LocalQuotasAreValid(ledger, request.quotas, selected, naming, remote, None, 0);
    forall i | 0 <= i < |quotas|
      ensures 0 < quotas[i].amount <= U32_MAX && Unused(ledger, quotas[i].id)
    {
      assert quotas[i] in quotas;
    }
    ReserveAmongOthers(ledger, clock, AnyDistributed(request.quotas, selected) && remote.Granted?, quotas, moments,
      request.quotas, horizon);
  }

  // ---------- what is reserved, and where ----------

  /** The trigger sets a positive limit for its resource. */
  predicate LimitsAnything(trigger: TriggerRule) {
    match trigger.resource
    case Some(Concurrency) => trigger.concurrencyMax.Some? && trigger.concurrencyMax.value > 0
    case Some(_) => exists i :: 0 <= i < |trigger.amounts| && trigger.amounts[i].maxAmount > 0
    case None => false
  }

  /** The local counter is asked for the triggers of local rules, and for those of global rules that fall back to
      it while the limiter cannot be reached. */
  predicate AskedLocally(entry: TriggerEntry, remote: RemoteAnswer) {
    || entry.rule.kind == RuleType.Local
    || (entry.rule.kind == Global && entry.trigger.failover == FailoverLocal && remote == Unreachable)
  }

  /** A requested resource is under a global rule. */
  predicate AnyGlobal(wanted: seq<QuotaAmount>, selected: Selection) {
    exists i ::
      0 <= i < |wanted| && wanted[i].resource in selected && selected[wanted[i].resource].rule.kind == Global
  }

  /** The lease is open, for the requested amount and with nothing reported: a request counts from the start. */
  ghost predicate OpenFor(ledger: Ledger, id: LeaseId, wanted: QuotaAmount, deadline: Option<nat>) {
    && id in ledger.leases && deadline == Some(ledger.leases[id].expiresAt)
    && ledger.leases[id].reservedAmount == wanted.amount && ledger.leases[id].sequence == 0
    && ledger.leases[id].consumedTotal == if wanted.resource.Qps? then 1 else 0
  }

  /** What a granted call holds: the limiter exactly if it granted the part of global rules, which it has not
      refused, and a local lease for a requested resource exactly if the local counter is asked for its trigger and
      that limits anything. */
  ghost predicate Holds(
      wanted: seq<QuotaAmount>, selected: Selection, naming: Naming, remote: RemoteAnswer, deadline: Option<nat>,
      after: Ledger, backends: seq<Backend>) {
    && (AnyGlobal(wanted, selected) ==> remote != Refused)
    && (Remote in backends <==> remote == Granted && AnyGlobal(wanted, selected))
    && (forall i :: 0 <= i < |wanted| ==>
          var r := wanted[i].resource;
          && (Backend.Local(naming.id(r), r) in backends <==>
                r in selected && AskedLocally(selected[r], remote) && LimitsAnything(selected[r].trigger))
          && (Backend.Local(naming.id(r), r) in backends ==> OpenFor(after, naming.id(r), wanted[i], deadline)))
    && (forall b :: b in backends && b.Local? ==>
          exists i :: 0 <= i < |wanted| && b == Backend.Local(naming.id(wanted[i].resource), wanted[i].resource))
  }

  /** The local counter was asked for this resource and refused it: its trigger has no room, or the time to live
      cannot be represented. `held` is the counter with the leases opened before for the same call. */
  ghost predicate RefusedAt(
      ledger: Ledger, held: Ledger, granted: seq<Quota>, wanted: QuotaAmount, selected: Selection, naming: Naming,
      remote: RemoteAnswer, deadline: Option<nat>, now: nat) {
    && wanted.resource in selected && AskedLocally(selected[wanted.resource], remote)
    && Adds(Expire(ledger, now), held, granted, deadline)
    && var entry := selected[wanted.resource];
       var outcome :=
         Reserve(held, LimitOf(entry, naming), wanted.amount, deadline, naming.id(wanted.resource), now).1;
       || (deadline == None && outcome == Unrepresentable)
       || (outcome == Rejected && LimitsAnything(entry.trigger))
  }

  /** Why a call is refused: by the limiter, or by the local counter for one of the resources. */
  ghost predicate RefusedFor(
      ledger: Ledger, wanted: seq<QuotaAmount>, selected: Selection, naming: Naming, remote: RemoteAnswer,
      deadline: Option<nat>, now: nat) {
    || (remote == Refused && AnyGlobal(wanted, selected))
    || exists i, held, granted ::
         0 <= i < |wanted| && RefusedAt(ledger, held, granted, wanted[i], selected, naming, remote, deadline, now)
  }

  /** The answer to a call: a granted one holds what it should, and a refused one has a reason. */
  ghost predicate AnswersWhatIsAsked(
      ledger: Ledger, wanted: seq<QuotaAmount>, selected: Selection, naming: Naming, remote: RemoteAnswer,
      deadline: Option<nat>, now: nat, after: Ledger, backends: Option<seq<Backend>>) {
    match backends
    case Some(held) => Holds(wanted, selected, naming, remote, deadline, after, held)
    case None => RefusedFor(ledger, wanted, selected, naming, remote, deadline, now)
  }

  lemma ConfiguredIff(entry: TriggerEntry, naming: Naming)
    ensures Configured(LimitOf(entry, naming)) <==> LimitsAnything(entry.trigger)
  {
    var trigger := LimitOf(entry, naming);
    if ReservesWindows(trigger) && LimitsAnything(entry.trigger) {
      var i :| 0 <= i < |entry.trigger.amounts| && entry.trigger.amounts[i].maxAmount > 0;
      assert IsLimit(trigger, i);
    }
    if ReservesWindows(trigger) && HasLimit(trigger) {
      var i :| IsLimit(trigger, i);
    }
  }

  lemma {:induction false} QuotasInclude(
      wanted: seq<QuotaAmount>, selected: Selection, test: TriggerEntry -> bool, naming: Naming, i: nat)
    requires i < |wanted| && Takes(selected, wanted[i], test)
    ensures QuotaFor(selected[wanted[i].resource], wanted[i], naming) in QuotasWhere(wanted, selected, test, naming)
    decreases |wanted|
  {
    if i < |wanted| - 1 {
      QuotasInclude(wanted[..|wanted| - 1], selected, test, naming, i);
    }
  }

  function AskedTest(remote: RemoteAnswer): TriggerEntry -> bool {
    (entry: TriggerEntry) => AskedLocally(entry, remote)
  }

  lemma AskedIffTested(selected: Selection, r: QuotaResource, remote: RemoteAnswer)
    requires Selected(selected) && r in selected
    ensures AskedLocally(selected[r], remote)
       <==> StaysLocal(selected[r]) || (remote.Unreachable? && FallsBack(selected[r]))
    ensures UsesDistributed(selected[r]) <==> selected[r].rule.kind == Global
  {
  }

  lemma AnyGlobalIff(wanted: seq<QuotaAmount>, selected: Selection)
    requires Selected(selected)
    ensures AnyDistributed(wanted, selected) <==> AnyGlobal(wanted, selected)
  {
    forall i | 0 <= i < |wanted|
      ensures Takes(selected, wanted[i], UsesDistributed)
         <==> wanted[i].resource in selected && selected[wanted[i].resource].rule.kind == Global
    {
      if wanted[i].resource in selected {
        AskedIffTested(selected, wanted[i].resource, Granted);
      }
    }
  }

  /** The quotas asked of the local counter are those of the triggers it is asked for. */
  lemma AskedQuotasStand(
      wanted: seq<QuotaAmount>, selected: Selection, naming: Naming, remote: RemoteAnswer, quota: Quota)
    returns (i: nat)
    requires Selected(selected) && ValidAmounts(wanted)
    requires forall r, s :: r != s ==> naming.id(r) != naming.id(s)
    requires quota in LocalQuotas(wanted, selected, naming, remote)
    ensures i < |wanted| && Stands(quota, wanted, selected, AskedTest(remote), naming, i)
  {
    if remote.Unreachable? && quota in QuotasWhere(wanted, selected, FallsBack, naming) {
      QuotasStand(wanted, selected, FallsBack, naming);
      var at :| Stands(quota, wanted, selected, FallsBack, naming, at);
      i := at;
    } else {
      QuotasStand(wanted, selected, StaysLocal, naming);
      var at :| Stands(quota, wanted, selected, StaysLocal, naming, at);
      i := at;
    }
    AskedIffTested(selected, wanted[i].resource, remote);
  }

  lemma AskedQuotasInclude(
      wanted: seq<QuotaAmount>, selected: Selection, naming: Naming, remote: RemoteAnswer, i: nat)
    requires Selected(selected) && i < |wanted| && Takes(selected, wanted[i], AskedTest(remote))
    ensures QuotaFor(selected[wanted[i].resource], wanted[i], naming) in LocalQuotas(wanted, selected, naming, remote)
  {
    AskedIffTested(selected, wanted[i].resource, remote);
    if StaysLocal(selected[wanted[i].resource]) {
      QuotasInclude(wanted, selected, StaysLocal, naming, i);
    } else {
      QuotasInclude(wanted, selected, FallsBack, naming, i);
    }
  }

  lemma BackendOfQuota(
      quota: Quota, wanted: seq<QuotaAmount>, selected: Selection, naming: Naming, remote: RemoteAnswer, i: nat)
    requires Selected(selected) && i < |wanted| && Stands(quota, wanted, selected, AskedTest(remote), naming, i)
    ensures Backend.Local(quota.id, ResourceOf(quota.trigger))
         == Backend.Local(naming.id(wanted[i].resource), wanted[i].resource)
    ensures Configured(quota.trigger) <==> LimitsAnything(selected[wanted[i].resource].trigger)
  {
    ConfiguredIff(selected[wanted[i].resource], naming);
  }

  /** A local backend of a granted call stands for one of its quotas. */
  lemma BackendStands(
      granted: seq<Quota>, withRemote: bool, wanted: seq<QuotaAmount>, selected: Selection, naming: Naming,
      remote: RemoteAnswer, b: Backend) returns (quota: Quota, i: nat)
    requires Selected(selected) && ValidAmounts(wanted)
    requires forall r, s :: r != s ==> naming.id(r) != naming.id(s)
    requires GrantsConfigured(LocalQuotas(wanted, selected, naming, remote), granted)
    requires b in BackendsOf(withRemote, granted) && b.Local?
    ensures quota in granted && i < |wanted| && Stands(quota, wanted, selected, AskedTest(remote), naming, i)
    ensures b == Backend.Local(naming.id(wanted[i].resource), wanted[i].resource)
    ensures LimitsAnything(selected[wanted[i].resource].trigger)
  {
    var k :| 0 <= k < |granted| && LocalBackends(granted)[k] == b;
    quota := granted[k];
    assert quota in granted;
    i := AskedQuotasStand(wanted, selected, naming, remote, quota);
    BackendOfQuota(quota, wanted, selected, naming, remote, i);
  }

  lemma BackendOfGranted(granted: seq<Quota>, withRemote: bool, quota: Quota)
    requires quota in granted
    ensures Backend.Local(quota.id, ResourceOf(quota.trigger)) in BackendsOf(withRemote, granted)
  {
    var k :| 0 <= k < |granted| && granted[k] == quota;
    assert LocalBackends(granted)[k] in LocalBackends(granted);
  }

  lemma RemoteIffTaken(granted: seq<Quota>, withRemote: bool)
    ensures Remote in BackendsOf(withRemote, granted) <==> withRemote
  {
  }

  /** One requested resource of a granted call. */
  lemma HoldsAt(
      granted: seq<Quota>, withRemote: bool, wanted: seq<QuotaAmount>, selected: Selection, naming: Naming,
      remote: RemoteAnswer, deadline: Option<nat>, base: Ledger, after: Ledger, i: nat)
    requires Selected(selected) && ValidAmounts(wanted) && i < |wanted|
    requires forall r, s :: r != s ==> naming.id(r) != naming.id(s)
    requires GrantsConfigured(LocalQuotas(wanted, selected, naming, remote), granted)
    requires Adds(base, after, granted, deadline)
    ensures
      var r, backends := wanted[i].resource, BackendsOf(withRemote, granted);
      && (Backend.Local(naming.id(r), r) in backends <==>
            r in selected && AskedLocally(selected[r], remote) && LimitsAnything(selected[r].trigger))
      && (Backend.Local(naming.id(r), r) in backends ==> OpenFor(after, naming.id(r), wanted[i], deadline))
  {
    var r, backends := wanted[i].resource, BackendsOf(withRemote, granted);
    var backend := Backend.Local(naming.id(r), r);
    if backend in backends {
      var quota, k := BackendStands(granted, withRemote, wanted, selected, naming, remote, backend);
      assert wanted[k].resource == r && k == i;
      assert NewLease(after.leases[quota.id], quota, deadline);
    }
    if r in selected && AskedLocally(selected[r], remote) && LimitsAnything(selected[r].trigger) {
      AskedQuotasInclude(wanted, selected, naming, remote, i);
      var quota := QuotaFor(selected[r], wanted[i], naming);
      BackendOfQuota(quota, wanted, selected, naming, remote, i);
      BackendOfGranted(granted, withRemote, quota);
    }
  }

  lemma GrantedHolds(
      granted: seq<Quota>, wanted: seq<QuotaAmount>, selected: Selection, naming: Naming,
      remote: RemoteAnswer, deadline: Option<nat>, base: Ledger, after: Ledger)
    requires Selected(selected) && ValidAmounts(wanted)
    requires forall r, s :: r != s ==> naming.id(r) != naming.id(s)
    requires GrantsConfigured(LocalQuotas(wanted, selected, naming, remote), granted)
    requires Adds(base, after, granted, deadline) && (AnyDistributed(wanted, selected) ==> !remote.Refused?)
    ensures Holds(wanted, selected, naming, remote, deadline, after,
              BackendsOf(AnyDistributed(wanted, selected) && remote.Granted?, granted))
  {
    var withRemote := AnyDistributed(wanted, selected) && remote.Granted?;
    AnyGlobalIff(wanted, selected);
    RemoteIffTaken(granted, withRemote);
    forall i | 0 <= i < |wanted|
      ensures
        var r, backends := wanted[i].resource, BackendsOf(withRemote, granted);
        && (Backend.Local(naming.id(r), r) in backends <==>
              r in selected && AskedLocally(selected[r], remote) && LimitsAnything(selected[r].trigger))
        && (Backend.Local(naming.id(r), r) in backends ==> OpenFor(after, naming.id(r), wanted[i], deadline))
    {
      HoldsAt(granted, withRemote, wanted, selected, naming, remote, deadline, base, after, i);
    }
    forall b | b in BackendsOf(withRemote, granted) && b.Local?
      ensures exists i :: 0 <= i < |wanted| && b == Backend.Local(naming.id(wanted[i].resource), wanted[i].resource)
    {
      var quota, i := BackendStands(granted, withRemote, wanted, selected, naming, remote, b);
    }
  }

  /** The resource whose quota refuses a call. */
  lemma QuotaRefuses(
      ledger: Ledger, wanted: seq<QuotaAmount>, selected: Selection, naming: Naming, remote: RemoteAnswer,
      deadline: Option<nat>, now: nat, quota: Quota, held: Ledger, granted: seq<Quota>)
    requires Selected(selected) && ValidAmounts(wanted)
    requires forall r, s :: r != s ==> naming.id(r) != naming.id(s)
    requires quota in LocalQuotas(wanted, selected, naming, remote)
    requires Adds(Expire(ledger, now), held, granted, deadline)
    requires Refuses(Reserve(held, quota.trigger, quota.amount, deadline, quota.id, now).1)
    ensures RefusedFor(ledger, wanted, selected, naming, remote, deadline, now)
  {
    var i := AskedQuotasStand(wanted, selected, naming, remote, quota);
    BackendOfQuota(quota, wanted, selected, naming, remote, i);
    OtherAnswers(held, quota.trigger, quota.amount, deadline, quota.id, now);
    if Reserve(held, quota.trigger, quota.amount, deadline, quota.id, now).1 == Rejected {
      RejectedIsConfigured(held, quota, deadline, now);
    }
    assert RefusedAt(ledger, held, granted, wanted[i], selected, naming, remote, deadline, now);
  }

  /** The local part of a call, on a counter in which nothing has expired. */
  lemma LocalPartIsAnswered(
      ledger: Ledger, base: Ledger, wanted: seq<QuotaAmount>, selected: Selection, naming: Naming,
      remote: RemoteAnswer, deadline: Option<nat>, now: nat, quotas: seq<Quota>, after: Ledger, granted: seq<Quota>,
      fine: bool)
    requires base == Expire(ledger, now) && Ready(base, now) && ValidRequest(base, quotas, deadline, now)
    requires Selected(selected) && ValidAmounts(wanted)
    requires forall r, s :: r != s ==> naming.id(r) != naming.id(s)
    requires quotas == LocalQuotas(wanted, selected, naming, remote)
    requires AnyDistributed(wanted, selected) ==> !remote.Refused?
    requires (after, granted, fine) == ReserveEach(base, quotas, deadline, now)
    ensures fine ==>
      Holds(wanted, selected, naming, remote, deadline, after,
        BackendsOf(AnyDistributed(wanted, selected) && remote.Granted?, granted))
    ensures !fine ==> RefusedFor(ledger, wanted, selected, naming, remote, deadline, now)
  {
    if fine {
      EachOpens(base, quotas, deadline, now);
      EachGrantsConfigured(base, quotas, deadline, now);
      GrantedHolds(granted, wanted, selected, naming, remote, deadline, base, after);
    } else {
      var quota, held, before := RefusingQuota(base, quotas, deadline, now);
      QuotaRefuses(ledger, wanted, selected, naming, remote, deadline, now, quota, held, before);
    }
  }

  lemma LocalPart(
      ledger: Ledger, clock: nat, wanted: seq<QuotaAmount>, selected: Selection, naming: Naming,
      remote: RemoteAnswer, deadline: Option<nat>, now: nat, quotas: seq<Quota>)
    requires Sound(ledger, clock) && clock <= now && ValidRequest(ledger, quotas, deadline, now)
    requires Selected(selected) && ValidAmounts(wanted)
    requires forall r, s :: r != s ==> naming.id(r) != naming.id(s)
    requires quotas == LocalQuotas(wanted, selected, naming, remote)
    requires AnyDistributed(wanted, selected) ==> !remote.Refused?
    ensures
      var (after, granted) := ReserveAll(ledger, quotas, deadline, now);
      && (granted.Some? ==>
            Holds(wanted, selected, naming, remote, deadline, after,
              BackendsOf(AnyDistributed(wanted, selected) && remote.Granted?, granted.value)))
      && (granted.None? ==> RefusedFor(ledger, wanted, selected, naming, remote, deadline, now))
  {
    if quotas == [] {
      assert Adds(ledger, ledger, [], deadline);
      GrantedHolds([], wanted, selected, naming, remote, deadline, ledger, ledger);
    } else {
      var base := Expire(ledger, now);
      ExpireKeepsSound(ledger, clock, now);
      ExpireIsFresh(ledger, now);
      StartsWithExpiry(ledger, quotas, deadline, now);
      ValidAfterExpiry(ledger, base, quotas, deadline, now);
      var (after, granted, fine) := ReserveEach(base, quotas, deadline, now);
      LocalPartIsAnswered(ledger, base, wanted, selected, naming, remote, deadline, now, quotas, after, granted, fine);
    }
  }

  /** Whatever the rules: a granted call holds exactly what rule kinds, failover and the limiter's answer call for,
      and a call is refused only by the limiter or by the local counter for a resource it was asked for. */
  lemma RequestHoldsWhatIsAsked(
      ledger: Ledger, clock: nat, wanted: seq<QuotaAmount>, selected: Selection, naming: Naming,
      remote: RemoteAnswer, deadline: Option<nat>, now: nat)
    requires Sound(ledger, clock) && clock <= now && (deadline.Some? ==> now < deadline.value <= now + MAX_TTL)
    requires Selected(selected) && ValidAmounts(wanted) && UnusedIds(ledger, naming)
    ensures
      var (after, backends) := ReserveSelected(ledger, wanted, selected, naming, remote, deadline, now);
      AnswersWhatIsAsked(ledger, wanted, selected, naming, remote, deadline, now, after, backends)
  {
    AnyGlobalIff(wanted, selected);
    LocalQuotasAreValid(ledger, wanted, selected, naming, remote, deadline, now);
    if !AnyDistributed(wanted, selected) || !remote.Refused? {
      LocalPart(ledger, clock, wanted, selected, naming, remote, deadline, now,
        LocalQuotas(wanted, selected, naming, remote));
    }
  }

  // ---------- the call itself ----------

  lemma NextQuota(wanted: seq<QuotaAmount>, selected: Selection, test: TriggerEntry -> bool, naming: Naming, i: nat)
    requires i < |wanted|
    ensures QuotasWhere(wanted[..i + 1], selected, test, naming)
         == QuotasWhere(wanted[..i], selected, test, naming)
            + if Takes(selected, wanted[i], test) then [QuotaFor(selected[wanted[i].resource], wanted[i], naming)]
              else []
  {
    assert wanted[..i + 1][..i] == wanted[..i];
  }

  method CollectQuotas(wanted: seq<QuotaAmount>, selected: Selection, test: TriggerEntry -> bool, naming: Naming)
    returns (quotas: seq<Quota>)
    ensures quotas == QuotasWhere(wanted, selected, test, naming)
  {
    quotas := [];
    for i := 0 to |wanted|
      invariant quotas == QuotasWhere(wanted[..i], selected, test, naming)
    {
      NextQuota(wanted, selected, test, naming, i);
      if Takes(selected, wanted[i], test) {
        quotas := quotas + [QuotaFor(selected[wanted[i].resource], wanted[i], naming)];
      }
    }
    assert wanted[..|wanted|] == wanted;
  }

  method ReserveRequest(
      counter: LocalQuotaCounter, request: QuotaRequest, rules: seq<RateLimit>, naming: Naming, remote: RemoteAnswer,
      deadline: Option<nat>, now: nat)
    returns (ghost selected: Selection, backends: Option<seq<Backend>>)
    requires counter.Valid() && counter.clock <= now && UnusedIds(counter.View(), naming)
    requires ValidAmounts(request.quotas) && (deadline.Some? ==> now < deadline.value <= now + MAX_TTL)
    modifies counter
    ensures counter.Valid() && counter.clock <= now
    ensures Selects(request, rules, selected)
    ensures (counter.View(), backends)
         == ReserveSelected(old(counter.View()), request.quotas, selected, naming, remote, deadline, now)
    ensures AnswersWhatIsAsked(old(counter.View()), request.quotas, selected, naming, remote, deadline, now,
              counter.View(), backends)
  {
    var chosen := SelectTriggers(request, rules);
    selected := chosen;
    forall r | r in chosen
      ensures chosen[r].trigger.resource == Some(r)
    {
      SelectionIff(request, rules, chosen, r);
    }
    LocalQuotasAreValid(counter.View(), request.quotas, chosen, naming, remote, deadline, now);
    RequestHoldsWhatIsAsked(counter.View(), counter.clock, request.quotas, chosen, naming, remote, deadline, now);
    var distributed := AnyDistributed(request.quotas, chosen);
    if distributed && remote.Refused? {
      return selected, None;
    }
    var fallback: seq<Quota> := [];
    if remote.Unreachable? {
      fallback := CollectQuotas(request.quotas, chosen, FallsBack, naming);
    }
    var local := CollectQuotas(request.quotas, chosen, StaysLocal, naming);
    var granted := ReserveQuotas(counter, fallback + local, deadline, now);
    backends := if granted.None? then None else Some(BackendsOf(distributed && remote.Granted?, granted.value));
  }
}
