/** The public lease as the program runs it: an object holding the confirmed totals, over a shared
    counter. Each method is proved to do what `LeaseClient` says. */
module QuotaLeases {
  import opened QuotaTypes
  import opened LeaseClient
  import opened LeaseAnswers
  import opened LocalQuotaCounters

  lemma OverlayNone(current: seq<QuotaConsumption>)
    ensures Overlay(current, []) == current
  {
  }

  lemma OverlayOne(current: seq<QuotaConsumption>, updates: seq<QuotaConsumption>, i: nat, at: nat)
    requires i < |updates| && DistinctResources(updates[..i + 1])
    requires at < |current| && current[at].resource == updates[i].resource && DistinctResources(current)
    ensures Overlay(current, updates[..i + 1])
            == Overlay(current, updates[..i])[at :=
                 Overlay(current, updates[..i])[at].(consumedTotal := updates[i].consumedTotal)]
    ensures Overlay(current, updates[..i])[at] == current[at]
  {
    var before, after := updates[..i], updates[..i + 1];
    assert after[i] == updates[i];
    assert forall k :: 0 <= k < i ==> before[k] == after[k];
    assert forall k :: 0 <= k < i ==> after[k].resource != after[i].resource;
    TotalMissing(before, updates[i].resource);
    TotalOf(after, i);
    forall k | 0 <= k < |current| && k != at
      ensures TotalFor(before, current[k].resource) == TotalFor(after, current[k].resource)
    {
      assert current[k].resource != updates[i].resource;
      assert after == before + [updates[i]];
      TotalSkips(before, updates[i], current[k].resource);
    }
  }

  lemma {:induction false} TotalSkips(
      consumptions: seq<QuotaConsumption>, last: QuotaConsumption, resource: QuotaResource)
    requires last.resource != resource
    ensures TotalFor(consumptions + [last], resource) == TotalFor(consumptions, resource)
    decreases |consumptions|
  {
    if consumptions != [] {
      assert (consumptions + [last])[1..] == consumptions[1..] + [last];
      TotalSkips(consumptions[1..], last, resource);
    }
  }

  /** The totals after `updates`, or why they are refused. */
  method ApplyConsumptionUpdates(
      reservations: seq<QuotaAmount>, current: seq<QuotaConsumption>, updates: seq<QuotaConsumption>, finished: bool)
    returns (r: Result<seq<QuotaConsumption>>)
    requires Matching(reservations, current)
    ensures r == Applied(reservations, current, updates, finished)
    ensures r.Ok? ==> Matching(reservations, r.value)
  {
    if finished {
      return Err(InvalidState);
    }
    var next := current;
    var seen: set<QuotaResource> := {};
    MatchingIsDistinct(reservations, current);
    OverlayNone(current);
    for i := 0 to |updates|
      invariant next == Overlay(current, updates[..i])
      invariant DistinctResources(updates[..i])
      invariant forall k :: 0 <= k < i ==> InRange(reservations, current, updates[k])
      invariant forall resource :: resource in seen <==> exists k :: 0 <= k < i && updates[k].resource == resource
    {
      var update := updates[i];
      assert updates[..i + 1] == updates[..i] + [update];
      if update.resource in seen {
        return Err(ApiInvalidArgument);
      }
      seen := seen + {update.resource};
      var reserved := AmountFor(reservations, update.resource);
      if reserved.None? {
        assert update in updates;
        return Err(ApiInvalidArgument);
      }
      ghost var place := AmountFound(reservations, update.resource);
      var at := 0;
      while next[at].resource != update.resource
        invariant 0 <= at <= place
        decreases place - at
      {
        at := at + 1;
      }
      OverlayOne(current, updates, i, at);
      TotalOf(current, at);
      if update.consumedTotal < next[at].consumedTotal || update.consumedTotal > reserved.value {
        assert update in updates;
        return Err(ApiInvalidArgument);
      }
      next := next[at := next[at].(consumedTotal := update.consumedTotal)];
    }
    assert updates[..|updates|] == updates;
    r := Ok(next);
  }

  class QuotaLease {
    const reservations: seq<QuotaAmount>
    const backends: seq<Backend>
    const counter: LocalQuotaCounter
    var consumptions: seq<QuotaConsumption>
    var sequence: nat
    var finished: bool

    ghost function State(): Client
      reads this
    {
      Client(consumptions, sequence, finished)
    }

    ghost predicate Valid()
      reads this, counter
    {
      counter.Valid() && Matching(reservations, consumptions)
    }

    constructor (
        reservations: seq<QuotaAmount>, initial: seq<QuotaConsumption>, backends: seq<Backend>,
        counter: LocalQuotaCounter)
      requires counter.Valid() && Matching(reservations, initial)
      ensures Valid() && State() == Client(initial, 0, false)
      ensures this.reservations == reservations && this.backends == backends && this.counter == counter
    {
      this.reservations, this.backends, this.counter := reservations, backends, counter;
      consumptions, sequence, finished := initial, 0, false;
    }

    /** One request to every backend in turn, stopping at the first failure. */
    method SendToBackends(
        request: Request, totals: seq<QuotaConsumption>, sequence: nat, answers: seq<bool>, now: nat)
      returns (r: Result<()>)
      requires counter.Valid() && counter.clock <= now && |answers| == |backends|
      modifies counter
      ensures counter.Valid() && counter.clock <= now
      ensures (counter.View(), r) == QueryAll(old(counter.View()), backends, request, totals, sequence, answers, now)
    {
      ghost var start := counter.View();
      r := Ok(());
      for i := 0 to |backends|
        invariant counter.Valid() && counter.clock <= now && r == Ok(())
        invariant QueryAll(start, backends[..i], request, totals, sequence, answers[..i], now) == (counter.View(), r)
      {
        ghost var before := counter.View();
        r := SendToBackend(backends[i], request, totals, sequence, answers[i], now);
        AsksNext(start, backends, request, totals, sequence, answers, now, i, before, (counter.View(), r));
        if r.Err? {
          StopsThere(start, backends, request, totals, sequence, answers, now, i + 1);
          return r;
        }
      }
      AsksAll(start, backends, request, totals, sequence, answers, now);
    }

    method SendToBackend(
        backend: Backend, request: Request, totals: seq<QuotaConsumption>, sequence: nat, answer: bool, now: nat)
      returns (r: Result<()>)
      requires counter.Valid() && counter.clock <= now
      modifies counter
      ensures counter.Valid() && counter.clock <= now
      ensures (counter.View(), r) == Query(old(counter.View()), backend, request, totals, sequence, answer, now)
    {
      match backend {
        case Remote => r := if answer then Ok(()) else Err(NetworkError);
        case Local(id, resource) =>
          var total := TotalFor(totals, resource);
          if total.None? {
            return Err(ApiInvalidArgument);
          }
          match request {
            case UpdateRequest => r := counter.UpdateLease(id, total.value, sequence, now);
            case FinishRequest => r := counter.FinishLease(id, total.value, sequence, now);
          }
      }
    }

    /** Takes over totals that every backend has confirmed. */
    method Confirm(request: Request, next: seq<QuotaConsumption>)
      modifies this
      ensures State() == Client(next, old(sequence) + 1, old(finished) || request.FinishRequest?)
    {
      consumptions, sequence, finished := next, sequence + 1, finished || request.FinishRequest?;
    }

    /** Sends the next totals to every backend and takes them over once all have confirmed. */
    method Commit(request: Request, next: seq<QuotaConsumption>, number: nat, answers: seq<bool>, now: nat)
      returns (r: Result<()>)
      requires counter.Valid() && counter.clock <= now && |answers| == |backends| && number == sequence + 1
      modifies this, counter
      ensures counter.Valid() && counter.clock <= now
      ensures (counter.View(), State(), r)
           == LeaseClient.Commit(old(counter.View()), old(State()), request, next,
                QueryAll(old(counter.View()), backends, request, next, number, answers, now))
    {
      if number > U64_MAX {
        return Err(InvalidState);
      }
      r := SendToBackends(request, next, number, answers, now);
      if r.Ok? {
        Confirm(request, next);
      }
    }

    /** Does what `LeaseClient` says; a finished lease refuses, and nothing changes. */
    method UpdateConsumptions(updates: seq<QuotaConsumption>, answers: seq<bool>, now: nat) returns (r: Result<()>)
      requires Valid() && counter.clock <= now && |answers| == |backends|
      modifies this, counter
      ensures Valid() && counter.clock <= now
      ensures old(finished) ==>
        r == Err(InvalidState) && counter.View() == old(counter.View()) && State() == old(State())
      ensures (counter.View(), State(), r)
              == LeaseClient.UpdateConsumptions(old(counter.View()), old(State()), reservations, backends, updates,
                answers, now)
    {
      var next := ApplyConsumptionUpdates(reservations, consumptions, updates, finished);
      if next.Err? {
        return Err(next.error);
      }
      if next.value == consumptions {
        return Ok(());
      }
      r := Commit(UpdateRequest, next.value, sequence + 1, answers, now);
    }

    /** Does what `LeaseClient` says; a lease that is finished asks nobody, changes nothing and accepts exactly
        what repeats the totals it was finished with. */
    method FinishConsumptions(updates: seq<QuotaConsumption>, answers: seq<bool>, now: nat) returns (r: Result<()>)
      requires Valid() && counter.clock <= now && |answers| == |backends|
      modifies this, counter
      ensures Valid() && counter.clock <= now
      ensures old(finished) ==> counter.View() == old(counter.View()) && State() == old(State())
      ensures old(finished) ==>
        (r.Ok? <==>
          Acceptable(reservations, old(consumptions), updates) && Repeats(old(consumptions), updates))
      ensures (counter.View(), State(), r)
              == LeaseClient.FinishConsumptions(old(counter.View()), old(State()), reservations, backends, updates,
                answers, now)
    {
      var next := ApplyConsumptionUpdates(reservations, consumptions, updates, false);
      if next.Err? {
        return Err(next.error);
      }
      if finished {
        UnchangedIff(reservations, consumptions, updates);
        return if next.value == consumptions then Ok(()) else Err(InvalidState);
      }
      r := Commit(FinishRequest, next.value, sequence + 1, answers, now);
    }

    method AbandonBackends(totals: seq<QuotaConsumption>, sequence: nat, now: nat)
      requires counter.Valid() && counter.clock <= now
      modifies counter
      ensures counter.Valid() && counter.clock <= now
      ensures counter.View() == AbandonAll(old(counter.View()), backends, totals, sequence, now)
    {
      ghost var start := counter.View();
      for i := 0 to |backends|
        invariant counter.Valid() && counter.clock <= now
        invariant counter.View() == AbandonAll(start, backends[..i], totals, sequence, now)
      {
        ghost var before := counter.View();
        var ignored := SendToBackend(backends[i], FinishRequest, totals, sequence, true, now);
        AbandonsNext(start, backends, totals, sequence, now, i, before, counter.View());
      }
      assert backends[..|backends|] == backends;
    }

    /** What dropping the lease does to the counter. */
    method Abandon(now: nat)
      requires Valid() && counter.clock <= now
      modifies counter
      ensures Valid() && counter.clock <= now
      ensures counter.View() == Dropped(old(counter.View()), State(), backends, now)
    {
      if !finished && sequence < U64_MAX {
        AbandonBackends(consumptions, sequence + 1, now);
      }
    }
  }
}
