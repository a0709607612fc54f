/** Retrying is safe: an update or a settlement of a lease may be repeated any number of times,
    with anything else happening in between, and counts once. */
module LeaseRetries {
  import opened QuotaTypes
  import opened QuotaLedger
  import opened LedgerLaws
  import opened LedgerRuns

  ghost predicate Accepted(ledger: Ledger, step: Step) {
    match step.event
    case Reserving(trigger, amount, deadline, id) =>
      Reserve(ledger, trigger, amount, deadline, id, step.now).1.Reserved?
    case Updating(id, consumedTotal, sequence) => Update(ledger, id, consumedTotal, sequence, step.now).1.Ok?
    case Finishing(id, consumedTotal, sequence) => Finish(ledger, id, consumedTotal, sequence, step.now).1.Ok?
  }

  ghost predicate Live(ledger: Ledger, id: LeaseId, lease: LocalLease) {
    id in ledger.leases && ledger.leases[id] == lease
  }

  /** `lease` has been settled with this final total, and a repeat is recognised before `until`. */
  ghost predicate Settled(
      ledger: Ledger, id: LeaseId, lease: LocalLease, consumedTotal: nat, sequence: nat, until: nat) {
    && id in ledger.retired && ledger.retired[id] == lease.(consumedTotal := consumedTotal)
    && id in ledger.completed && ledger.completed[id].consumedTotal == consumedTotal
    && ledger.completed[id].sequence == sequence && ledger.completed[id].expiresAt >= until
  }

  lemma ExpireKeepsLive(ledger: Ledger, now: nat, id: LeaseId, lease: LocalLease)
    requires Live(ledger, id, lease) && now < lease.expiresAt
    ensures Live(Expire(ledger, now), id, lease)
  {
  }

  lemma LiveIsStable(ledger: Ledger, clock: nat, step: Step, id: LeaseId, lease: LocalLease)
    requires Sound(ledger, clock) && Possible(ledger, clock, step)
    requires Live(ledger, id, lease) && step.now < lease.expiresAt && step.event.id != id
    ensures Live(After(ledger, step), id, lease)
  {
    ExpireKeepsLive(ledger, step.now, id, lease);
    match step.event
    case Reserving(trigger, amount, deadline, other) =>
      ReserveFrame(ledger, trigger, amount, deadline, other, step.now);
    case Updating(other, consumedTotal, sequence) => UpdateFrame(ledger, other, consumedTotal, sequence, step.now);
    case Finishing(other, consumedTotal, sequence) => FinishFrame(ledger, other, consumedTotal, sequence, step.now);
  }

  lemma ExpireKeepsSettled(
      ledger: Ledger, clock: nat, now: nat, id: LeaseId, lease: LocalLease, consumedTotal: nat, sequence: nat,
      until: nat)
    requires Sound(ledger, clock)
    requires Settled(ledger, id, lease, consumedTotal, sequence, until) && now < until
    ensures Settled(Expire(ledger, now), id, lease, consumedTotal, sequence, until) && id !in Expire(ledger, now).leases
  {
    ExpireKeepsRetired(ledger, clock, now, id);
  }

  /** While its record is retained, a settled lease stays settled whatever is asked of it. */
  lemma SettledIsStable(
      ledger: Ledger, clock: nat, step: Step, id: LeaseId, lease: LocalLease, consumedTotal: nat, sequence: nat,
      until: nat)
    requires Sound(ledger, clock) && Possible(ledger, clock, step)
    requires Settled(ledger, id, lease, consumedTotal, sequence, until) && step.now < until
    ensures Settled(After(ledger, step), id, lease, consumedTotal, sequence, until)
    ensures step.event == Finishing(id, consumedTotal, sequence) ==> Accepted(ledger, step)
  {
    ExpireKeepsSettled(ledger, clock, step.now, id, lease, consumedTotal, sequence, until);
    match step.event
    case Reserving(trigger, amount, deadline, other) =>
      ReserveFrame(ledger, trigger, amount, deadline, other, step.now);
    case Updating(other, total, number) => UpdateFrame(ledger, other, total, number, step.now);
    case Finishing(other, total, number) => FinishFrame(ledger, other, total, number, step.now);
  }

  lemma FinishSettles(
      ledger: Ledger, clock: nat, now: nat, id: LeaseId, lease: LocalLease, consumedTotal: nat, sequence: nat)
    requires Sound(ledger, clock) && Live(ledger, id, lease) && now < lease.expiresAt
    requires Validate(lease, consumedTotal, sequence).Ok?
    ensures Finish(ledger, id, consumedTotal, sequence, now).1.Ok?
    ensures Settled(Finish(ledger, id, consumedTotal, sequence, now).0, id, lease, consumedTotal, sequence,
              now + RETENTION)
  {
    ExpireKeepsLive(ledger, now, id, lease);
    FinishFrame(ledger, id, consumedTotal, sequence, now);
    assert id !in ledger.completed;
  }

  /** When the lease was first asked for something. */
  function FirstTime(steps: seq<Step>, id: LeaseId): Option<nat> {
    if steps == [] then None
    else
      var before, last := FirstTime(steps[..|steps| - 1], id), steps[|steps| - 1];
      if before.Some? then before else if last.event.id == id then Some(last.now) else None
  }

  /** The lease is only ever asked for `request`: first before it expires, and again for as long as the record
      of its settlement is kept, however long ago it would have expired. */
  ghost predicate OnlyRepeats(steps: seq<Step>, lease: LocalLease, request: Event) {
    forall i :: 0 <= i < |steps| ==>
      && InTime(FirstTime(steps[..i], request.id), lease, steps[i].now)
      && (steps[i].event.id == request.id ==> steps[i].event == request)
  }

  predicate InTime(first: Option<nat>, lease: LocalLease, now: nat) {
    if first.Some? then now < first.value + RETENTION else now < lease.expiresAt
  }

  /** The lease before and after the settlement was first asked for. */
  ghost predicate Phase(
      ledger: Ledger, id: LeaseId, lease: LocalLease, consumedTotal: nat, sequence: nat, first: Option<nat>) {
    if first.Some? then Settled(ledger, id, lease, consumedTotal, sequence, first.value + RETENTION)
    else Live(ledger, id, lease)
  }

  lemma FinishStep(
      ledger: Ledger, clock: nat, step: Step, id: LeaseId, lease: LocalLease, consumedTotal: nat, sequence: nat,
      first: Option<nat>)
    requires Sound(ledger, clock) && Possible(ledger, clock, step)
    requires Phase(ledger, id, lease, consumedTotal, sequence, first) && InTime(first, lease, step.now)
    requires Validate(lease, consumedTotal, sequence).Ok?
    requires step.event.id == id ==> step.event == Finishing(id, consumedTotal, sequence)
    ensures step.event.id == id ==> Accepted(ledger, step)
    ensures Phase(After(ledger, step), id, lease, consumedTotal, sequence,
              if first.Some? then first else if step.event.id == id then Some(step.now) else None)
  {
    if first.Some? {
      SettledIsStable(ledger, clock, step, id, lease, consumedTotal, sequence, first.value + RETENTION);
    } else if step.event.id == id {
      FinishSettles(ledger, clock, step.now, id, lease, consumedTotal, sequence);
    } else {
      LiveIsStable(ledger, clock, step, id, lease);
    }
  }

  ghost predicate Asked(steps: seq<Step>, id: LeaseId) {
    exists step :: step in steps && step.event.id == id
  }

  lemma AskedLast(steps: seq<Step>, id: LeaseId)
    requires steps != []
    ensures Asked(steps, id) <==> Asked(steps[..|steps| - 1], id) || steps[|steps| - 1].event.id == id
  {
    assert steps == steps[..|steps| - 1] + [steps[|steps| - 1]];
  }

  lemma RepeatsBefore(steps: seq<Step>, before: seq<Step>, lease: LocalLease, request: Event)
    requires steps != [] && before == steps[..|steps| - 1] && OnlyRepeats(steps, lease, request)
    ensures OnlyRepeats(before, lease, request)
    ensures InTime(FirstTime(before, request.id), lease, steps[|steps| - 1].now)
  {
    forall i | 0 <= i < |before|
      ensures before[i] == steps[i] && before[..i] == steps[..i]
    {
    }
  }

  /** Settling converges: however often the settlement is repeated while its record is kept, and whatever
      other callers do, every repeat succeeds and the lease is settled once with that total. */
  lemma {:induction false} FinishConverges(
      start: Ledger, clock: nat, steps: seq<Step>, id: LeaseId, consumedTotal: nat, sequence: nat)
    requires Sound(start, clock) && PossibleRun(start, clock, steps) && id in start.leases
    requires Validate(start.leases[id], consumedTotal, sequence).Ok?
    requires OnlyRepeats(steps, start.leases[id], Finishing(id, consumedTotal, sequence))
    ensures forall i :: 0 <= i < |steps| && steps[i].event.id == id ==> Accepted(Run(start, steps[..i]), steps[i])
    ensures var lease, first := start.leases[id], FirstTime(steps, id);
            if first.Some?
            then Settled(Run(start, steps), id, lease, consumedTotal, sequence, first.value + RETENTION)
            else Live(Run(start, steps), id, lease)
  {
    if steps != [] {
      var before, last := steps[..|steps| - 1], steps[|steps| - 1];
      var lease := start.leases[id];
      RepeatsBefore(steps, before, lease, Finishing(id, consumedTotal, sequence));
      FinishConverges(start, clock, before, id, consumedTotal, sequence);
      RunKeepsSound(start, clock, before);
      FinishStep(Run(start, before), Clock(clock, before), last, id, lease, consumedTotal, sequence,
        FirstTime(before, id));
      Earlier(start, before, steps, id);
    }
  }

  lemma Earlier(start: Ledger, before: seq<Step>, steps: seq<Step>, id: LeaseId)
    requires steps != [] && before == steps[..|steps| - 1]
    requires forall i :: 0 <= i < |before| && before[i].event.id == id ==> Accepted(Run(start, before[..i]), before[i])
    ensures forall i :: 0 <= i < |steps| - 1 && steps[i].event.id == id ==> Accepted(Run(start, steps[..i]), steps[i])
  {
    forall i | 0 <= i < |steps| - 1 && steps[i].event.id == id
      ensures Accepted(Run(start, steps[..i]), steps[i])
    {
      assert before[..i] == steps[..i];
      assert before[i] == steps[i];
    }
  }

  /** What a lease becomes once an update is accepted. */
  function Reported(lease: LocalLease, consumedTotal: nat, sequence: nat): LocalLease {
    lease.(consumedTotal := consumedTotal, sequence := sequence)
  }

  lemma UpdateReports(
      ledger: Ledger, now: nat, id: LeaseId, lease: LocalLease, consumedTotal: nat, sequence: nat)
    requires now < lease.expiresAt && Validate(lease, consumedTotal, sequence).Ok?
    requires Live(ledger, id, lease) || Live(ledger, id, Reported(lease, consumedTotal, sequence))
    ensures Update(ledger, id, consumedTotal, sequence, now).1.Ok?
    ensures Live(Update(ledger, id, consumedTotal, sequence, now).0, id, Reported(lease, consumedTotal, sequence))
  {
    ExpireKeepsLive(ledger, now, id, ledger.leases[id]);
  }

  /** Among `steps`, the lease is only ever asked for `request`, before it expires. An update leaves no record
      that could lapse. */
  ghost predicate OnlyReports(steps: seq<Step>, lease: LocalLease, request: Event) {
    forall step :: step in steps ==>
      step.now < lease.expiresAt && (step.event.id == request.id ==> step.event == request)
  }

  /** Reporting converges in the same way, for as long as the lease lives. */
  lemma {:induction false} UpdateConverges(
      start: Ledger, clock: nat, steps: seq<Step>, id: LeaseId, consumedTotal: nat, sequence: nat)
    requires Sound(start, clock) && PossibleRun(start, clock, steps) && id in start.leases
    requires Validate(start.leases[id], consumedTotal, sequence).Ok?
    requires OnlyReports(steps, start.leases[id], Updating(id, consumedTotal, sequence))
    ensures forall i :: 0 <= i < |steps| && steps[i].event.id == id ==> Accepted(Run(start, steps[..i]), steps[i])
    ensures var lease := start.leases[id];
            Live(Run(start, steps), id,
              if Asked(steps, id) then Reported(lease, consumedTotal, sequence) else lease)
  {
    if steps != [] {
      var before, last := steps[..|steps| - 1], steps[|steps| - 1];
      var lease := start.leases[id];
      UpdateConverges(start, clock, before, id, consumedTotal, sequence);
      RunKeepsSound(start, clock, before);
      var ledger, time := Run(start, before), Clock(clock, before);
      assert last in steps;
      if last.event.id == id {
        UpdateReports(ledger, last.now, id, lease, consumedTotal, sequence);
      } else {
        LiveIsStable(ledger, time, last, id, ledger.leases[id]);
      }
      AskedLast(steps, id);
      Earlier(start, before, steps, id);
    }
  }
}
