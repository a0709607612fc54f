/** The client side of a lease as mathematics: one public lease fanned out to many backends. */
module LeaseClient {
  import opened QuotaTypes
  import opened QuotaLedger

  /** A backend of a composite lease. What a remote limiter answers is up to the environment. */
  datatype Backend = Local(id: LeaseId, resource: QuotaResource) | Remote

  datatype Client = Client(consumptions: seq<QuotaConsumption>, sequence: nat, finished: bool)

  // ---------- applying reported totals ----------

  /** One consumption per reservation, in the same order, for distinct resources. */
  predicate Matching(reservations: seq<QuotaAmount>, consumptions: seq<QuotaConsumption>) {
    && |consumptions| == |reservations|
    && (forall i :: 0 <= i < |reservations| ==> consumptions[i].resource == reservations[i].resource)
    && (forall i, j :: 0 <= i < j < |reservations| ==> reservations[i].resource != reservations[j].resource)
  }

  predicate DistinctResources(updates: seq<QuotaConsumption>) {
    forall i, j :: 0 <= i < j < |updates| ==> updates[i].resource != updates[j].resource
  }

  predicate InRange(reservations: seq<QuotaAmount>, current: seq<QuotaConsumption>, update: QuotaConsumption) {
    var amount := AmountFor(reservations, update.resource);
    var total := TotalFor(current, update.resource);
    amount.Some? && total.Some? && total.value <= update.consumedTotal <= amount.value
  }

  /** Each reported resource is reserved, reported once, never less than before and never more
      than reserved. */
  predicate Acceptable(reservations: seq<QuotaAmount>, current: seq<QuotaConsumption>, updates: seq<QuotaConsumption>) {
    DistinctResources(updates) && forall update :: update in updates ==> InRange(reservations, current, update)
  }

  /** The current totals with the reported ones in place. */
  function Overlay(current: seq<QuotaConsumption>, updates: seq<QuotaConsumption>): (next: seq<QuotaConsumption>)
    ensures |next| == |current|
  {
    seq(|current|, i requires 0 <= i < |current| =>
      var reported := TotalFor(updates, current[i].resource);
      if reported.Some? then current[i].(consumedTotal := reported.value) else current[i])
  }

  function Applied(
      reservations: seq<QuotaAmount>, current: seq<QuotaConsumption>, updates: seq<QuotaConsumption>, finished: bool)
    : Result<seq<QuotaConsumption>>
  {
    if finished then Err(InvalidState)
    else if Acceptable(reservations, current, updates) then Ok(Overlay(current, updates))
    else Err(ApiInvalidArgument)
  }

  // ---------- the composite backend ----------

  datatype Request = UpdateRequest | FinishRequest

  /** One backend's answer; `answer` is what a remote limiter would say. */
  ghost function Query(
      ledger: Ledger, backend: Backend, request: Request, totals: seq<QuotaConsumption>, sequence: nat, answer: bool,
      now: nat)
    : (Ledger, Result<()>)
  {
    match backend
    case Remote => (ledger, if answer then Ok(()) else Err(NetworkError))
    case Local(id, resource) =>
      var total := TotalFor(totals, resource);
      if total.None? then (ledger, Err(ApiInvalidArgument))
      else if request.UpdateRequest? then Update(ledger, id, total.value, sequence, now)
      else Finish(ledger, id, total.value, sequence, now)
  }

  /** What asking one backend makes of a ledger. */
  type Inquiry = (Ledger, Backend, bool) -> (Ledger, Result<()>)

  ghost function Asking(request: Request, totals: seq<QuotaConsumption>, sequence: nat, now: nat): Inquiry {
    (ledger: Ledger, backend: Backend, answer: bool) => Query(ledger, backend, request, totals, sequence, answer, now)
  }

  /** The backends in order, up to the first that fails. */
  ghost function AskAll(ledger: Ledger, backends: seq<Backend>, answers: seq<bool>, ask: Inquiry): (Ledger, Result<()>)
    requires |answers| == |backends|
  {
    if backends == [] then (ledger, Ok(()))
    else
      var last := |backends| - 1;
      var (before, r) := AskAll(ledger, backends[..last], answers[..last], ask);
      if r.Err? then (before, r) else ask(before, backends[last], answers[last])
  }

  ghost function QueryAll(
      ledger: Ledger, backends: seq<Backend>, request: Request, totals: seq<QuotaConsumption>, sequence: nat,
      answers: seq<bool>, now: nat)
    : (Ledger, Result<()>)
    requires |answers| == |backends|
  {
    AskAll(ledger, backends, answers, Asking(request, totals, sequence, now))
  }

  /** The last backend is asked when the ones before it have confirmed. */
  lemma AsksLast(
      ledger: Ledger, backends: seq<Backend>, request: Request, totals: seq<QuotaConsumption>, sequence: nat,
      answers: seq<bool>, now: nat)
    requires backends != [] && |answers| == |backends|
    ensures
      var last := |backends| - 1;
      var (before, r) := QueryAll(ledger, backends[..last], request, totals, sequence, answers[..last], now);
      QueryAll(ledger, backends, request, totals, sequence, answers, now)
      == if r.Err? then (before, r)
         else Query(before, backends[last], request, totals, sequence, answers[last], now)
  {
  }

  /** Dropping asks every backend to finish and ignores what they say. Nothing waits for a remote
      limiter, so only the local backends show. */
  ghost function AbandonAll(
      ledger: Ledger, backends: seq<Backend>, totals: seq<QuotaConsumption>, sequence: nat, now: nat): Ledger {
    if backends == [] then ledger
    else
      var before := AbandonAll(ledger, backends[..|backends| - 1], totals, sequence, now);
      Query(before, backends[|backends| - 1], FinishRequest, totals, sequence, true, now).0
  }

  // ---------- the public operations ----------

  function ClientAfter(client: Client, request: Request, next: seq<QuotaConsumption>, r: Result<()>): Client {
    if r.Ok? then Client(next, client.sequence + 1, client.finished || request.FinishRequest?) else client
  }

  /** What sending `next` to every backend, with result `sent`, makes of ledger and client: the client keeps what
      all have confirmed. Nothing is sent once the sequence numbers are used up. */
  function Commit(
      ledger: Ledger, client: Client, request: Request, next: seq<QuotaConsumption>, sent: (Ledger, Result<()>))
    : (Ledger, Client, Result<()>)
  {
    if client.sequence >= U64_MAX then (ledger, client, Err(InvalidState))
    else (sent.0, ClientAfter(client, request, next, sent.1), sent.1)
  }

  ghost function UpdateConsumptions(
      ledger: Ledger, client: Client, reservations: seq<QuotaAmount>, backends: seq<Backend>,
      updates: seq<QuotaConsumption>, answers: seq<bool>, now: nat)
    : (Ledger, Client, Result<()>)
    requires |answers| == |backends|
  {
    var next := Applied(reservations, client.consumptions, updates, client.finished);
    if next.Err? then (ledger, client, Err(next.error))
    else if next.value == client.consumptions then (ledger, client, Ok(()))
    else
      Commit(ledger, client, UpdateRequest, next.value,
        QueryAll(ledger, backends, UpdateRequest, next.value, client.sequence + 1, answers, now))
  }

  ghost function FinishConsumptions(
      ledger: Ledger, client: Client, reservations: seq<QuotaAmount>, backends: seq<Backend>,
      updates: seq<QuotaConsumption>, answers: seq<bool>, now: nat)
    : (Ledger, Client, Result<()>)
    requires |answers| == |backends|
  {
    var next := Applied(reservations, client.consumptions, updates, false);
    if next.Err? then (ledger, client, Err(next.error))
    else if client.finished then
      (ledger, client, if next.value == client.consumptions then Ok(()) else Err(InvalidState))
    else
      Commit(ledger, client, FinishRequest, next.value,
        QueryAll(ledger, backends, FinishRequest, next.value, client.sequence + 1, answers, now))
  }

  /** Dropping an unfinished lease abandons the last confirmed totals. */
  ghost function Dropped(ledger: Ledger, client: Client, backends: seq<Backend>, now: nat): Ledger {
    if client.finished || client.sequence >= U64_MAX then ledger
    else AbandonAll(ledger, backends, client.consumptions, client.sequence + 1, now)
  }

  // ---------- facts about totals ----------

  lemma {:induction false} TotalOf(consumptions: seq<QuotaConsumption>, i: nat)
    requires DistinctResources(consumptions) && i < |consumptions|
    ensures TotalFor(consumptions, consumptions[i].resource) == Some(consumptions[i].consumedTotal)
    decreases |consumptions|
  {
    if i > 0 {
      assert consumptions[0].resource != consumptions[i].resource;
      TotalOf(consumptions[1..], i - 1);
    }
  }

  lemma {:induction false} TotalMissing(consumptions: seq<QuotaConsumption>, resource: QuotaResource)
    requires forall i :: 0 <= i < |consumptions| ==> consumptions[i].resource != resource
    ensures TotalFor(consumptions, resource) == None
    decreases |consumptions|
  {
    if consumptions != [] {
      TotalMissing(consumptions[1..], resource);
    }
  }

  lemma {:induction false} TotalFound(consumptions: seq<QuotaConsumption>, resource: QuotaResource) returns (i: nat)
    requires TotalFor(consumptions, resource).Some?
    ensures i < |consumptions| && consumptions[i].resource == resource
    ensures TotalFor(consumptions, resource) == Some(consumptions[i].consumedTotal)
    decreases |consumptions|
  {
    if consumptions[0].resource == resource {
      i := 0;
    } else {
      i := TotalFound(consumptions[1..], resource);
      i := i + 1;
    }
  }

  lemma {:induction false} AmountOf(reservations: seq<QuotaAmount>, i: nat)
    requires forall j, k :: 0 <= j < k < |reservations| ==> reservations[j].resource != reservations[k].resource
    requires i < |reservations|
    ensures AmountFor(reservations, reservations[i].resource) == Some(reservations[i].amount)
    decreases |reservations|
  {
    if i > 0 {
      assert reservations[0].resource != reservations[i].resource;
      AmountOf(reservations[1..], i - 1);
    }
  }

  lemma {:induction false} AmountFound(reservations: seq<QuotaAmount>, resource: QuotaResource) returns (i: nat)
    requires AmountFor(reservations, resource).Some?
    ensures i < |reservations| && reservations[i].resource == resource
    decreases |reservations|
  {
    if reservations[0].resource == resource {
      i := 0;
    } else {
      i := AmountFound(reservations[1..], resource);
      i := i + 1;
    }
  }

  lemma MatchingIsDistinct(reservations: seq<QuotaAmount>, consumptions: seq<QuotaConsumption>)
    requires Matching(reservations, consumptions)
    ensures DistinctResources(consumptions)
  {
    forall i, j | 0 <= i < j < |consumptions|
      ensures consumptions[i].resource != consumptions[j].resource
    {
      assert reservations[i].resource != reservations[j].resource;
    }
  }

  /** What accepted reports do to the total of one resource. */
  lemma OverlayTotal(
      reservations: seq<QuotaAmount>, current: seq<QuotaConsumption>, updates: seq<QuotaConsumption>,
      resource: QuotaResource)
    requires Matching(reservations, current) && Acceptable(reservations, current, updates)
    requires TotalFor(current, resource).Some?
    ensures Matching(reservations, Overlay(current, updates))
    ensures TotalFor(Overlay(current, updates), resource)
            == if TotalFor(updates, resource).Some? then TotalFor(updates, resource) else TotalFor(current, resource)
    ensures TotalFor(Overlay(current, updates), resource).value >= TotalFor(current, resource).value
  {
    var next := Overlay(current, updates);
    MatchingIsDistinct(reservations, current);
    MatchingIsDistinct(reservations, next);
    var i := TotalFound(current, resource);
    TotalOf(next, i);
    if TotalFor(updates, resource).Some? {
      var j := TotalFound(updates, resource);
      assert updates[j] in updates && InRange(reservations, current, updates[j]);
    }
  }

  /** One more backend after those that have confirmed. */
  lemma AsksNext(
      ledger: Ledger, backends: seq<Backend>, request: Request, totals: seq<QuotaConsumption>, sequence: nat,
      answers: seq<bool>, now: nat, i: nat, before: Ledger, result: (Ledger, Result<()>))
    requires |answers| == |backends| && i < |backends|
    requires QueryAll(ledger, backends[..i], request, totals, sequence, answers[..i], now) == (before, Ok(()))
    requires result == Query(before, backends[i], request, totals, sequence, answers[i], now)
    ensures QueryAll(ledger, backends[..i + 1], request, totals, sequence, answers[..i + 1], now) == result
  {
    assert backends[..i + 1][..i] == backends[..i] && answers[..i + 1][..i] == answers[..i];
    AsksLast(ledger, backends[..i + 1], request, totals, sequence, answers[..i + 1], now);
  }

  lemma AsksAll(
      ledger: Ledger, backends: seq<Backend>, request: Request, totals: seq<QuotaConsumption>, sequence: nat,
      answers: seq<bool>, now: nat)
    requires |answers| == |backends|
    ensures QueryAll(ledger, backends[..|backends|], request, totals, sequence, answers[..|backends|], now)
         == QueryAll(ledger, backends, request, totals, sequence, answers, now)
  {
    assert backends[..|backends|] == backends && answers[..|backends|] == answers;
  }

  lemma AbandonsNext(
      ledger: Ledger, backends: seq<Backend>, totals: seq<QuotaConsumption>, sequence: nat, now: nat, i: nat,
      before: Ledger, after: Ledger)
    requires i < |backends| && AbandonAll(ledger, backends[..i], totals, sequence, now) == before
    requires after == Query(before, backends[i], FinishRequest, totals, sequence, true, now).0
    ensures AbandonAll(ledger, backends[..i + 1], totals, sequence, now) == after
  {
    assert backends[..i + 1][..i] == backends[..i];
  }

  /** After a failure the remaining backends are not asked. */
  lemma {:induction false} StopsThere(
      ledger: Ledger, backends: seq<Backend>, request: Request, totals: seq<QuotaConsumption>, sequence: nat,
      answers: seq<bool>, now: nat, i: nat)
    requires |answers| == |backends| && i <= |backends|
    requires QueryAll(ledger, backends[..i], request, totals, sequence, answers[..i], now).1.Err?
    ensures QueryAll(ledger, backends, request, totals, sequence, answers, now)
            == QueryAll(ledger, backends[..i], request, totals, sequence, answers[..i], now)
    decreases |backends| - i
  {
    if i < |backends| {
      assert backends[..i + 1][..i] == backends[..i] && answers[..i + 1][..i] == answers[..i];
      AsksLast(ledger, backends[..i + 1], request, totals, sequence, answers[..i + 1], now);
      StopsThere(ledger, backends, request, totals, sequence, answers, now, i + 1);
    } else {
      assert backends[..i] == backends && answers[..i] == answers;
    }
  }
}
