/** What the public calls of a lease answer, in terms of the totals reported and confirmed: which reports are
    accepted, what a finished lease still answers, and what is left when the sequence numbers are used up. */
module LeaseAnswers {
  import opened QuotaTypes
  import opened QuotaLedger
  import opened LeaseClient

  // ---------- which reports are accepted ----------

  /** A report about reservation `k`: not below the confirmed total and not above what was reserved. */
  predicate FitsReservation(
      reservations: seq<QuotaAmount>, current: seq<QuotaConsumption>, update: QuotaConsumption, k: int)
    requires |current| == |reservations|
  {
    && 0 <= k < |reservations| && reservations[k].resource == update.resource
    && current[k].consumedTotal <= update.consumedTotal <= reservations[k].amount
  }

  predicate Fits(reservations: seq<QuotaAmount>, current: seq<QuotaConsumption>, update: QuotaConsumption)
    requires |current| == |reservations|
  {
    exists k :: 0 <= k < |reservations| && FitsReservation(reservations, current, update, k)
  }

  lemma InRangeIff(reservations: seq<QuotaAmount>, current: seq<QuotaConsumption>, update: QuotaConsumption)
    requires Matching(reservations, current)
    ensures InRange(reservations, current, update) <==> Fits(reservations, current, update)
  {
    MatchingIsDistinct(reservations, current);
    if InRange(reservations, current, update) {
      var k := AmountFound(reservations, update.resource);
      AmountOf(reservations, k);
      TotalOf(current, k);
      assert FitsReservation(reservations, current, update, k);
    }
    if k :| 0 <= k < |reservations| && FitsReservation(reservations, current, update, k) {
      AmountOf(reservations, k);
      TotalOf(current, k);
    }
  }

  /** Reports are accepted exactly when no resource is reported twice and each fits a reservation. */
  lemma AcceptedIff(reservations: seq<QuotaAmount>, current: seq<QuotaConsumption>, updates: seq<QuotaConsumption>)
    requires Matching(reservations, current)
    ensures Applied(reservations, current, updates, false).Ok? <==>
      && (forall i, j :: 0 <= i < j < |updates| ==> updates[i].resource != updates[j].resource)
      && forall update :: update in updates ==> Fits(reservations, current, update)
    ensures Applied(reservations, current, updates, false).Err? ==>
      Applied(reservations, current, updates, false).error == ApiInvalidArgument
  {
    forall update | update in updates
      ensures InRange(reservations, current, update) <==> Fits(reservations, current, update)
    {
      InRangeIff(reservations, current, update);
    }
  }

  /** Accepted reports are in the totals afterwards and the other totals stay. */
  lemma AppliedTotals(
      reservations: seq<QuotaAmount>, current: seq<QuotaConsumption>, updates: seq<QuotaConsumption>, k: nat)
    requires Matching(reservations, current) && k < |current|
    requires Applied(reservations, current, updates, false).Ok?
    ensures
      var next := Applied(reservations, current, updates, false).value;
      && Matching(reservations, next)
      && (forall i :: 0 <= i < |updates| && updates[i].resource == current[k].resource ==> next[k] == updates[i])
      && ((forall i :: 0 <= i < |updates| ==> updates[i].resource != current[k].resource) ==> next[k] == current[k])
  {
    MatchingIsDistinct(reservations, current);
    TotalOf(current, k);
    OverlayTotal(reservations, current, updates, current[k].resource);
    forall i | 0 <= i < |updates| && updates[i].resource == current[k].resource
      ensures Overlay(current, updates)[k] == updates[i]
    {
      TotalOf(updates, i);
    }
    if forall i :: 0 <= i < |updates| ==> updates[i].resource != current[k].resource {
      TotalMissing(updates, current[k].resource);
    }
  }

  /** Whether the reports only repeat totals already confirmed. */
  predicate Repeats(current: seq<QuotaConsumption>, updates: seq<QuotaConsumption>) {
    forall i :: 0 <= i < |updates| ==> updates[i] in current
  }

  lemma UnchangedIff(reservations: seq<QuotaAmount>, current: seq<QuotaConsumption>, updates: seq<QuotaConsumption>)
    requires Matching(reservations, current) && Applied(reservations, current, updates, false).Ok?
    ensures Applied(reservations, current, updates, false).value == current <==> Repeats(current, updates)
  {
    var next := Applied(reservations, current, updates, false).value;
    AcceptedIff(reservations, current, updates);
    forall k | 0 <= k < |current|
      ensures forall i :: 0 <= i < |updates| && updates[i].resource == current[k].resource ==> next[k] == updates[i]
      ensures (forall i :: 0 <= i < |updates| ==> updates[i].resource != current[k].resource) ==> next[k] == current[k]
    {
      AppliedTotals(reservations, current, updates, k);
    }
    if Repeats(current, updates) {
      forall k | 0 <= k < |current|
        ensures next[k] == current[k]
      {
        if i :| 0 <= i < |updates| && updates[i].resource == current[k].resource {
          var at :| 0 <= at < |current| && current[at] == updates[i];
          assert reservations[at].resource == reservations[k].resource;
        }
      }
    }
    if next == current {
      forall i | 0 <= i < |updates|
        ensures updates[i] in current
      {
        assert Fits(reservations, current, updates[i]);
        var k :| 0 <= k < |reservations| && FitsReservation(reservations, current, updates[i], k);
        assert next[k] == updates[i];
      }
    }
  }

  /** Reporting the same again changes nothing more. */
  lemma AppliedTwice(reservations: seq<QuotaAmount>, current: seq<QuotaConsumption>, updates: seq<QuotaConsumption>)
    requires Matching(reservations, current) && Applied(reservations, current, updates, false).Ok?
    ensures
      var next := Applied(reservations, current, updates, false).value;
      Matching(reservations, next) && Applied(reservations, next, updates, false) == Ok(next)
  {
    var next := Applied(reservations, current, updates, false).value;
    AcceptedIff(reservations, current, updates);
    OverlayMatches(reservations, current, updates);
    forall update | update in updates
      ensures update in next && Fits(reservations, next, update)
    {
      assert Fits(reservations, current, update);
      var k :| 0 <= k < |reservations| && FitsReservation(reservations, current, update, k);
      var i :| 0 <= i < |updates| && updates[i] == update;
      AppliedTotals(reservations, current, updates, k);
      assert next[k] == update && FitsReservation(reservations, next, update, k);
    }
    AcceptedIff(reservations, next, updates);
    UnchangedIff(reservations, next, updates);
  }

  lemma OverlayMatches(reservations: seq<QuotaAmount>, current: seq<QuotaConsumption>, updates: seq<QuotaConsumption>)
    requires Matching(reservations, current)
    ensures Matching(reservations, Overlay(current, updates))
  {
  }

  // ---------- a finished lease ----------

  /** A finish that succeeded can be sent again at any time: it succeeds again, whatever has become of the
      counter and whatever a limiter would say, and changes neither counter nor lease. */
  lemma FinishCanBeRepeated(
      ledger: Ledger, client: Client, reservations: seq<QuotaAmount>, backends: seq<Backend>,
      updates: seq<QuotaConsumption>, answers: seq<bool>, now: nat, later: Ledger, others: seq<bool>, time: nat)
    requires Matching(reservations, client.consumptions) && |answers| == |backends| && |others| == |backends|
    requires FinishConsumptions(ledger, client, reservations, backends, updates, answers, now).2.Ok?
    ensures
      var ended := FinishConsumptions(ledger, client, reservations, backends, updates, answers, now).1;
      && ended.finished
      && FinishConsumptions(later, ended, reservations, backends, updates, others, time) == (later, ended, Ok(()))
  {
    AppliedTwice(reservations, client.consumptions, updates);
  }

  /** A finished lease answers a finish without asking anybody: yes exactly when the reports are acceptable and
      every total reported is the one confirmed. */
  lemma FinishedLeaseAnswers(
      ledger: Ledger, client: Client, reservations: seq<QuotaAmount>, backends: seq<Backend>,
      updates: seq<QuotaConsumption>, answers: seq<bool>, now: nat)
    requires Matching(reservations, client.consumptions) && |answers| == |backends| && client.finished
    ensures
      var (after, c, r) := FinishConsumptions(ledger, client, reservations, backends, updates, answers, now);
      && after == ledger && c == client
      && (Acceptable(reservations, client.consumptions, updates) ==>
            r == if Repeats(client.consumptions, updates) then Ok(()) else Err(InvalidState))
      && (!Acceptable(reservations, client.consumptions, updates) ==> r == Err(ApiInvalidArgument))
  {
    if Acceptable(reservations, client.consumptions, updates) {
      UnchangedIff(reservations, client.consumptions, updates);
    }
  }

  /** Whatever call ended the lease, an update afterwards is refused and changes nothing. */
  lemma NoUpdateAfterFinish(
      ledger: Ledger, client: Client, reservations: seq<QuotaAmount>, backends: seq<Backend>,
      last: seq<QuotaConsumption>, answers: seq<bool>, now: nat,
      later: Ledger, updates: seq<QuotaConsumption>, others: seq<bool>, time: nat)
    requires Matching(reservations, client.consumptions) && |answers| == |backends| && |others| == |backends|
    requires FinishConsumptions(ledger, client, reservations, backends, last, answers, now).2.Ok?
    ensures
      var ended := FinishConsumptions(ledger, client, reservations, backends, last, answers, now).1;
      && UpdateConsumptions(later, ended, reservations, backends, updates, others, time)
         == (later, ended, Err(InvalidState))
      && Dropped(later, ended, backends, time) == later
  {
  }

  /** Nothing is left to settle on a drop when the lease is finished, nor can be when no sequence number is left. */
  lemma NothingToDrop(ledger: Ledger, client: Client, backends: seq<Backend>, now: nat)
    requires client.finished || client.sequence >= U64_MAX
    ensures Dropped(ledger, client, backends, now) == ledger
  {
  }

  // ---------- an open lease ----------

  /** An update of an open lease: refused reports, and reports that repeat confirmed totals, ask nobody. A report
      that moves a total takes the next sequence number when it succeeds and leaves the lease as it was when it
      does not; with no number left it is refused and nobody is asked. */
  lemma UpdateAnswers(
      ledger: Ledger, client: Client, reservations: seq<QuotaAmount>, backends: seq<Backend>,
      updates: seq<QuotaConsumption>, answers: seq<bool>, now: nat)
    requires Matching(reservations, client.consumptions) && |answers| == |backends| && !client.finished
    ensures
      var (after, c, r) := UpdateConsumptions(ledger, client, reservations, backends, updates, answers, now);
      var accepted := Acceptable(reservations, client.consumptions, updates);
      && (!accepted ==> after == ledger && c == client && r == Err(ApiInvalidArgument))
      && (accepted && Repeats(client.consumptions, updates) ==> after == ledger && c == client && r == Ok(()))
      && (accepted && !Repeats(client.consumptions, updates) && client.sequence >= U64_MAX ==>
            after == ledger && c == client && r == Err(InvalidState))
      && (r.Err? ==> c == client)
      && (r.Ok? ==>
            && !c.finished && c.consumptions == Overlay(client.consumptions, updates)
            && c.sequence == client.sequence + if Repeats(client.consumptions, updates) then 0 else 1)
  {
    if Acceptable(reservations, client.consumptions, updates) {
      UnchangedIff(reservations, client.consumptions, updates);
    }
  }

  /** A finish of an open lease always asks the backends once its reports are accepted, also when they repeat
      confirmed totals, and ends the lease exactly when all confirm. */
  lemma FinishAnswers(
      ledger: Ledger, client: Client, reservations: seq<QuotaAmount>, backends: seq<Backend>,
      updates: seq<QuotaConsumption>, answers: seq<bool>, now: nat)
    requires Matching(reservations, client.consumptions) && |answers| == |backends| && !client.finished
    ensures
      var (after, c, r) := FinishConsumptions(ledger, client, reservations, backends, updates, answers, now);
      var accepted := Acceptable(reservations, client.consumptions, updates);
      && (!accepted ==> after == ledger && c == client && r == Err(ApiInvalidArgument))
      && (accepted && client.sequence >= U64_MAX ==> after == ledger && c == client && r == Err(InvalidState))
      && (accepted && client.sequence < U64_MAX ==>
            var totals := Overlay(client.consumptions, updates);
            (after, r) == QueryAll(ledger, backends, FinishRequest, totals, client.sequence + 1, answers, now))
      && (r.Err? ==> c == client)
      && (r.Ok? ==> c == Client(Overlay(client.consumptions, updates), client.sequence + 1, true))
  {
  }
}
