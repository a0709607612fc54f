# Verified model of the governance client

This project models the parts of the client where state, order and arithmetic decide what a user
observes, and proves what they keep. `dafny verify dfyconfig.toml` checks everything.

## What is modelled

**The local quota ledger** (`QuotaTypes`, `QuotaLedger`, `LedgerSums`, `LedgerLaws`, `ReserveLaws`,
`LedgerRuns`, `CounterRules`, `LeaseRetries`, `RuleConditions`, `LocalQuotaCounter`). `LocalQuotaCounter` keeps tumbling
windows, concurrency occupancy, live leases and recently completed leases. `QuotaLedger` says, key by
key, what every operation must leave; `LocalQuotaCounter` is a class that changes four maps in place with
the loops of the program, and each of its methods is proved equal to that specification. The laws are about
any interleaving of reservations, reports, settlements and expiries: counters equal the sums over leases, no
cap is passed, no saturating subtraction clips, each lease is settled once, and repeats converge.
`CounterRules` says what each operation decides and leaves without naming how it is computed: a reservation is
granted if and only if every limited window that is still running has room for it and every other limit is at least
the amount; a window too old starts over, so a quota used up comes back (`QuotaComesBack`).
Two configurations break the books: a trigger that names one window length twice charges a lease more than
once, and a limit of `u32::MAX` lets a counter wrap. Run by run the exact condition is on the reservations:
under any rules a run stays in order all along if and only if every reservation it admits has room for what it
adds, the amount once per ask that names a window (`InOrderIffRoom`). For whole rule sets, balance, single
charging and cap hold together in every run exactly when a trigger repeats no window length
(`FaithfulIffDistinctWindows`); where the repeated limit is less than the least limit charged that often, one
reservation already passes it (`RepeatedWindowPassesLimit`, `CapIffDistinctWindows`); and without repetition
every run stays in order exactly when all limits, of windows and of slots, are below `u32::MAX`
(`InOrderIffBelowLargest`).

**The lease a caller holds** (`LeaseClient`, `LeaseAnswers`, `LeaseStandings`, `LeaseLaws`, `LeaseProtocol`,
`LeaseCatchUp`, `QuotaLease`). The client side with its cumulative totals and sequence number, sending to several backends in
turn, each at its own time and with anybody else using the counter in between. Client and backends stay in
step; a request that failed after any prefix of backends can be sent again later, and leaves what one
uninterrupted call would have left. `LeaseAnswers` says which reports are accepted and what a finished lease still
answers. A lease is put together with the remote limiter first (`RemoteFirst`, kept
by `QuotaApi.BackendsOf`) and local backends never refuse, so a failed call changes nothing and a drop settles
every local backend with the totals confirmed last, as the type's documentation promises (api.rs:54-63).
`DropSettlesTheUnreached`, `LocalBeforeRemoteStaysOpen` and `OpenLeaseExpiresUnconfirmed` say what that order is
worth: a composite that asked a local backend before a remote one would leave it open, with an unconfirmed
total, when the remote one fails.

**Reserving several resources** (`QuotaRules`, `QuotaReservation`, `QuotaGrants`, `QuotaApi`, `QuotaTurns`,
`QuotaRequests`). The choice of a
trigger per resource, the all-or-nothing reservation with its rollback and its fallback for an unreachable
limiter, and the lease it hands out: one theorem from rules and a request to a lease in step or to nothing
(`RequestIsAllOrNothing`), and the same with other callers before every reservation (`RequestAmongOthers`,
`RefusedAmongOthers`). Which resources a granted call holds, at the limiter and locally, is stated by rule kind,
failover and the limiter's answer (`RequestHoldsWhatIsAsked`).

**The limiter session** (`QuotaSession`, `QuotaWindows`, `Settlement`, `Endpoints`). One request in flight per
stream, with callers, reader task, server and failures as interleaved steps; the registry and
initialisation of windows; the check of a settlement; the choice of an endpoint.

**The API index and its users** (`StableSorting`, `ApiMatching`, `PathTrie`, `ApiIndexSpec`, `ApiIndexes`,
`SecurityPolicy`, `QuotaRules`, `TrafficRules`). A character trie on the heap, method buckets, sorting and
dropping repeats, proved to answer as an ordered scan with the matching test of the index. That test
differs from `api_matches` in one case: an exact text path equal to `*`, which the full match takes for
every path and the index for a path of one star. The exact condition is proved, for one request and for
all requests under every reading of the other pattern kinds.

**Identity** (`TrustBundle`, `CredentialWorker`) and **fault detection** (`FaultDetect`): histories of trust
bundles, rounds of the credential loop, and the probe tasks that two event-fed snapshots ask for.

## Reading the model

- Integers are unbounded; where the program saturates or wraps, the model does so explicitly
  (`SatAdd`, `SatSub`, `WrapAdd`, `Wrapped`). `+=` on a `u32` wraps, as in a release build. A window's generation
  is a plain count; comparing the stored 64-bit value is proved to be comparing the count.
- Each operation of the counter takes one clock reading; the program reads the clock several times
  under the same lock. The methods that ask or open several backends take one reading for all of them; the
  theorems on `SendAround` and `ReserveAround` let every backend have its own, with other callers in between.
- A window key is a structure of its request-and-trigger part and its length; the program joins the parts
  into one string. Lease ids are parameters, assumed unused before.
- What depends on code outside the model is a parameter and the theorems hold for every value of it: the
  patterns other than exact text (`others`), traffic matching, header digests, sampling and
  affinity hashes, the answers of remote limiters.
- `retired` in the ledger is a record for the proofs; no operation reads it.

## Model

| member | source | states |
|---|---|---|
| LedgerSums.TotalRemove | src/traffic/ratelimit/default.rs:618-634 | a sum over leases does not depend on the order in which the hash map is walked |
| LedgerLaws.WrappedComparisonIsExact | src/traffic/ratelimit/default.rs:386-391 | comparing 64-bit generations that wrap is comparing the true number of rollovers, for every lease the counter can hold |
| LedgerLaws.SettlingNeverClips | src/traffic/ratelimit/default.rs:636-663 | settling a set of live leases clips no saturating subtraction or addition, in a window or in a slot: what it gives back was reserved |
| LedgerLaws.RetireKeepsBooks | src/traffic/ratelimit/default.rs:636-663 | settling any set of leases keeps counters equal to the sums over leases and within the caps |
| LedgerLaws.RetireKeepsSound | src/traffic/ratelimit/default.rs:636-663 | settling keeps the structural invariant of the maps |
| LedgerLaws.ExpireKeepsBooks | src/traffic/ratelimit/default.rs:618-634 | the cleanup every call starts with keeps balance and caps |
| LedgerLaws.UpdateKeepsBooks | src/traffic/ratelimit/default.rs:461-482 | reporting a total keeps balance and caps, accepted or not |
| LedgerLaws.FinishKeepsBooks | src/traffic/ratelimit/default.rs:484-517 | finishing keeps balance and caps, accepted or not |
| ReserveLaws.ReserveKeepsSound | src/traffic/ratelimit/default.rs:346-459 | every reservation, granted or refused, keeps the structural invariant |
| ReserveLaws.ReserveKeepsBooks | src/traffic/ratelimit/default.rs:346-459 | with distinct window lengths and limits below `u32::MAX`, reserving keeps balance and caps, and its additions do not wrap |
| ReserveLaws.RoomKeepsBooks | src/traffic/ratelimit/default.rs:346-459 | under any rules, a reservation admitted only where there is room for all it adds keeps balance and caps |
| ReserveLaws.ChargedExactly | src/traffic/ratelimit/default.rs:407-413 | where there is room, the loop that charges reserved windows adds the amount once per reservation, without wrap-around and within the limit |
| LedgerRuns.LedgerBalancesOverEveryRun | src/traffic/ratelimit/default.rs:346-517 | conservation and cap in every reachable state: reserved, committed and occupied are the sums over live and settled leases and no limit is exceeded |
| LedgerRuns.SettledOnce | src/traffic/ratelimit/default.rs:484-517 | a settled lease is never settled again and its final total stands whatever happens later |
| CounterRules.ExpiryIff | src/traffic/ratelimit/default.rs:618-634 | a lease or record is still there after the cleanup exactly when its time is not up, and unchanged; a lease whose time is up is settled as it last reported |
| CounterRules.WindowsGrantIff | src/traffic/ratelimit/default.rs:361-406 | a reservation in windows is granted if and only if, on the counter as expiry leaves it, each limited window younger than its length has room on top of what is committed and reserved, and every other limit is at least the amount; without a positive limit it is not configured |
| CounterRules.OtherAnswers | src/traffic/ratelimit/default.rs:346-459 | slots are granted exactly when occupancy and amount stay within a positive limit, saturating; a time to live that cannot be represented and other resources answer as in the program and change nothing but for expiry |
| CounterRules.QuotaComesBack | src/traffic/ratelimit/default.rs:386-391 | once every limited window had its time since the last operation, a reservation within the limits is granted, whatever was spent before |
| CounterRules.RefusedReservationLeaves | src/traffic/ratelimit/default.rs:374-406 | a refused reservation charges nothing: windows too old start over up to the first limit that refuses, everything else is as expiry left it |
| CounterRules.GrantedReservationLeaves | src/traffic/ratelimit/default.rs:374-413 | a granted one charges each limited window once per limit naming it: a window too old or missing starts at the present with that alone, a running one keeps start, generation and committed count, no other window changes |
| CounterRules.GrantedLeaseHolds | src/traffic/ratelimit/default.rs:414-452 | the lease opened has nothing reported, a request counted from the start, its deadline, and one reservation per limit in the present generation of its window |
| CounterRules.SlotReservationLeaves | src/traffic/ratelimit/default.rs:424-452 | a granted slot reservation adds the amount to the occupancy, wrapping, and opens a lease that holds it; a refused one leaves the occupancy |
| CounterRules.UpdateIff | src/traffic/ratelimit/default.rs:461-482 | a report is taken exactly when the lease lives and it repeats the last report or has the next number and a total from the last one up to the reservation; the error otherwise, and what changes |
| CounterRules.FinishIff | src/traffic/ratelimit/default.rs:484-517 | a settlement is taken exactly when its record is kept or the lease lives and number and total fit; the error otherwise; a repeat or refusal changes nothing but for expiry |
| CounterRules.SettlementLeaves | src/traffic/ratelimit/default.rs:636-650 | a settlement gives back the reserved amount and commits the final total, once per reservation the lease has in the present generation of a window, and touches no other window |
| CounterRules.ReleaseLeaves | src/traffic/ratelimit/default.rs:651-661 | a settlement releases the occupied amount, forgets a slot left empty and touches no other slot |
| CounterRules.SettledLeaseIsRecorded | src/traffic/ratelimit/default.rs:504-515 | a settled lease is gone with its final total and its record is kept for a minute |
| LeaseRetries.LiveIsStable | src/traffic/ratelimit/default.rs:461-517 | other callers' operations leave an unexpired lease untouched |
| LeaseStandings.StepSpares | src/traffic/ratelimit/default.rs:346-517 | a step about one lease leaves every other lease, live or settled with its record, where it was |
| LeaseRetries.SettledIsStable | src/traffic/ratelimit/default.rs:484-517 | a completed record survives other operations for its retention time |
| LeaseRetries.FinishConverges | src/traffic/ratelimit/default.rs:492-516 | repeating a settlement any number of times among other operations, first while the lease lives and then for as long as its record is kept, always succeeds and settles once |
| LeaseRetries.UpdateConverges | src/traffic/ratelimit/default.rs:475-481 | for as long as the lease lives, repeating a report always succeeds and counts once |
| RuleConditions.FaithfulIffDistinctWindows | src/traffic/ratelimit/default.rs:374-413 | every run is balanced, charges a lease at most its amount per window and keeps the limits of the trigger if and only if no two windows of the trigger have one length |
| RuleConditions.InOrderIffRoom | src/traffic/ratelimit/default.rs:374-438 | under any rules, a run balances and stays inside the limits all along if and only if every reservation it admits has room: in each window for the amount once per ask that names it, in its slot for the amount |
| RuleConditions.RepeatedWindowPassesLimit | src/traffic/ratelimit/default.rs:374-413 | when the limit of a repeated length is less than the least limit charged once per ask of it, one reservation takes its counter past that limit |
| RuleConditions.CapIffDistinctWindows | src/traffic/ratelimit/default.rs:374-413 | where the limits of repeated lengths are that tight, a trigger keeps its limits in every run if and only if it repeats none |
| RuleConditions.RepeatedWindowOvercharges | src/traffic/ratelimit/default.rs:374-413 | a run in which a repeated window length charges one lease twice |
| RuleConditions.InOrderIffBelowLargest | src/traffic/ratelimit/default.rs:392-438 | under rules that repeat no window length and allow no more than given limits, every run balances and stays inside them if and only if every limit, of window or slot, is below `u32::MAX` |
| RuleConditions.LargestLimitWraps | src/traffic/ratelimit/default.rs:392-413 | with the largest limit, two reservations wrap the counter to zero |
| RuleConditions.LargestSlotWraps | src/traffic/ratelimit/default.rs:426-440 | with the largest concurrency limit, two reservations wrap the occupancy to zero |
| LocalQuotaCounters.RetireOneMore | src/traffic/ratelimit/default.rs:626-630 | settling leases one by one, in any order, is settling them together |
| LocalQuotaCounters.LocalQuotaCounter.SettleLocalLease | src/traffic/ratelimit/default.rs:636-663 | the in-place settlement of one lease leaves the specified state |
| LocalQuotaCounters.LocalQuotaCounter.CleanupExpiredLeases | src/traffic/ratelimit/default.rs:618-634 | the cleanup loop settles exactly the leases whose time is up and drops exactly the records that have lapsed; the others are unchanged |
| LocalQuotaCounters.LocalQuotaCounter.AdmitWindows | src/traffic/ratelimit/default.rs:373-406 | the checking loop touches exactly the windows up to the first refusal and admits when all fit |
| LocalQuotaCounters.LocalQuotaCounter.ChargeWindows | src/traffic/ratelimit/default.rs:407-413 | the charging loop adds the amount once per reservation |
| LocalQuotaCounters.LocalQuotaCounter.Reserve | src/traffic/ratelimit/default.rs:346-459 | reserving leaves the specified ledger and outcome on every path; in windows it grants if and only if every running limited window has room and every other limit is at least the amount |
| LocalQuotaCounters.LocalQuotaCounter.UpdateLease | src/traffic/ratelimit/default.rs:461-482 | reporting leaves the specified ledger and result |
| LocalQuotaCounters.LocalQuotaCounter.FinishLease | src/traffic/ratelimit/default.rs:484-517 | finishing leaves the specified ledger and result |
| LeaseLaws.AcceptedAdvances | src/traffic/ratelimit/api.rs:177-235 | totals the client accepts never fall and stay inside the reservations |
| LeaseLaws.SendEvery | src/traffic/ratelimit/default.rs:561-594 | one request over many backends, each asked at its own time with any other callers in between: it fails only where a remote one does, sets none back, and on success all have taken the new totals |
| LeaseProtocol.UpdateSimulates | src/traffic/ratelimit/api.rs:98-114 | what the client accepts no local backend refuses, and afterwards totals and sequence numbers agree |
| LeaseProtocol.CallsStayInStep | src/traffic/ratelimit/api.rs:98-114 | over every failure-free sequence of updates client and backends stay in step, and a call succeeds exactly when its totals are acceptable |
| LeaseProtocol.FinishSimulates | src/traffic/ratelimit/api.rs:129-150 | finishing settles every local backend with the accepted totals; refused totals change nothing |
| LeaseProtocol.RetryCatchesUp | src/traffic/ratelimit/default.rs:567-587 | after a failure at any backend, and any activity of others, sending the same totals again succeeds and every backend has taken them once |
| LeaseCatchUp.RetryMatchesUninterrupted | src/traffic/ratelimit/default.rs:567-587 | failing after any prefix and retrying at any later time leaves the windows, slots, leases and settlements of one uninterrupted call made then, and the same records but for when they lapse |
| LeaseProtocol.FailedCallChangesNothing | src/traffic/ratelimit/api.rs:98-150 | a failed update or finish of a lease in step leaves counter and client as they were, since the remote limiter is asked first |
| LeaseProtocol.DropAfterFailureSettlesConfirmed | src/traffic/ratelimit/api.rs:54-63 | after any failed call, however long ago, and anything others did since, a drop while the lease lives settles every local backend with the last confirmed totals |
| LeaseProtocol.DropSettlesConfirmed | src/traffic/ratelimit/api.rs:163-175 | dropping a lease in step settles every local backend with the confirmed totals |
| LeaseProtocol.DropSettlesTheUnreached | src/traffic/ratelimit/api.rs:163-175 | for backends in any order, a drop during an update settles exactly those the update has not reached and leaves the others as they are |
| LeaseProtocol.LocalBeforeRemoteStaysOpen | src/traffic/ratelimit/default.rs:567-593 | a composite with a local backend before a remote one that fails: a drop leaves the local lease open with the unconfirmed total |
| LeaseProtocol.OpenLeaseExpiresUnconfirmed | src/traffic/ratelimit/default.rs:618-634 | a local lease left open with an unconfirmed total is charged that total at expiry |
| QuotaLeases.ApplyConsumptionUpdates | src/traffic/ratelimit/api.rs:177-235 | the loop accepts exactly the updates that name reserved resources once, without falling or exceeding, and lays them over the totals |
| LeaseAnswers.AcceptedIff | src/traffic/ratelimit/api.rs:177-235 | reports are accepted if and only if no resource is reported twice and each total lies between the confirmed one and the reservation; otherwise the argument is invalid |
| LeaseAnswers.AppliedTotals | src/traffic/ratelimit/api.rs:177-235 | accepted totals replace the confirmed ones and every other total stays |
| LeaseAnswers.UpdateAnswers | src/traffic/ratelimit/api.rs:98-114 | an update that is refused, or only repeats confirmed totals, asks nobody; one that moves a total takes the next sequence number if it succeeds and leaves the lease as it was if not; without a number left nobody is asked |
| LeaseAnswers.FinishAnswers | src/traffic/ratelimit/api.rs:129-150 | a finish of an open lease with accepted reports asks every backend, also when no total moves, and ends the lease exactly when all confirm |
| LeaseAnswers.FinishCanBeRepeated | src/traffic/ratelimit/api.rs:129-150 | a finish that succeeded succeeds again on any later counter, whatever a limiter would say, and changes neither counter nor lease |
| LeaseAnswers.FinishedLeaseAnswers | src/traffic/ratelimit/api.rs:129-150 | a finished lease asks nobody and answers yes if and only if the reports are acceptable and every total reported is the confirmed one |
| LeaseAnswers.NoUpdateAfterFinish | src/traffic/ratelimit/api.rs:98-114 | an update after a finish is refused as an invalid state, and neither it nor a drop changes anything |
| LeaseAnswers.NothingToDrop | src/traffic/ratelimit/api.rs:163-175 | a drop of a finished lease, or with no sequence number left, changes nothing |
| QuotaLeases.QuotaLease.UpdateConsumptions | src/traffic/ratelimit/api.rs:98-114 | an update leaves the specified ledger, client state and result; of a finished lease it is refused and changes nothing |
| QuotaLeases.QuotaLease.FinishConsumptions | src/traffic/ratelimit/api.rs:129-150 | a finish leaves the specified ledger, client state and result; of a finished lease it changes nothing and succeeds if and only if it repeats confirmed totals |
| QuotaLeases.QuotaLease.SendToBackends | src/traffic/ratelimit/default.rs:567-587 | backends are asked in order up to the first failure |
| QuotaLeases.QuotaLease.Abandon | src/traffic/ratelimit/api.rs:163-175 | a drop abandons the last confirmed totals at every backend unless finished |
| QuotaReservation.RollBackUndoes | src/traffic/ratelimit/default.rs:711-718 | under any rules, rolling back settles exactly the leases the call opened, as they were opened |
| QuotaReservation.FailedReserveLeavesNothingLive | src/traffic/ratelimit/default.rs:140-161 | a refused multi-resource reservation leaves no lease of its own live: those it opened are settled with the totals they started from and all others are untouched; under rules that repeat no window length and limits below `u32::MAX`, windows and slots are there as found, except that each request-counting window already reserved keeps one committed request |
| QuotaApi.RollBackAmongOthers | src/traffic/ratelimit/default.rs:711-718 | abandoning the leases of a refused call one by one, with other callers in between, settles each with the total it started from |
| QuotaApi.ReservedLeaseStartsInStep | src/traffic/ratelimit/default.rs:92-166 | under any rules, the lease a successful call hands out, with or without a remote part, is in step with the ledger it leaves |
| QuotaTurns.ReserveAmongOthers | src/traffic/ratelimit/default.rs:140-166 | with other callers before every reservation, each at its own time, the leases opened so far are in step with the counter, granted or refused |
| QuotaTurns.RefusedAmongOthers | src/traffic/ratelimit/default.rs:140-161 | a call refused among other callers rolls back every lease it opened, each settled with the total it started from |
| QuotaApi.ReserveQuotas | src/traffic/ratelimit/default.rs:140-166 | the reserving loop over the local counter, with its rollback, leaves the specified ledger and grants |
| QuotaRequests.RequestIsAllOrNothing | src/traffic/ratelimit/default.rs:92-166 | from any rules and a request: a lease that asks the remote limiter first and is in step with the counter, or a refusal whose leases are all settled with what they started from; under safe rules every window and slot is then as found but for the one request already counted |
| QuotaRequests.RequestAmongOthers | src/traffic/ratelimit/default.rs:92-166 | the same call with other callers before every reservation: the leases it holds are in step with the counter and the remote limiter comes first |
| QuotaRequests.RequestHoldsWhatIsAsked | src/traffic/ratelimit/default.rs:92-166 | a granted call holds a local lease for a requested resource, open for the requested amount, if and only if its trigger limits anything and is of a local rule, or of a global one with local failover while the limiter was unreachable; it holds the limiter if and only if that granted a global rule; it is refused only by the limiter or by the local counter for such a resource |
| QuotaGrants.EachGrantsConfigured | src/traffic/ratelimit/default.rs:140-166 | a call that is not refused is granted exactly the quotas whose triggers set a limit |
| QuotaRequests.LocalQuotasAreValid | src/traffic/ratelimit/default.rs:107-161 | what the selection asks of the local counter has valid amounts and fresh leases of its own, each for a requested resource, and counts at most one request |
| QuotaRequests.ReserveRequest | src/traffic/ratelimit/default.rs:92-166 | selection, the answer of the limiter, fallback, local reservation and rollback leave the specified ledger and backends; what is held, and why a call is refused, follows from rule kinds, failover and the limiter's answer as in `RequestHoldsWhatIsAsked` |
| QuotaRules.SelectTriggers | src/traffic/ratelimit/default.rs:97-105 | the loop keeps, per requested resource, the first matching trigger |
| QuotaRules.PickedTriggerLeads | src/traffic/ratelimit/default.rs:767-795 | that trigger is the first serving one of the serving rule with least priority, earliest on a tie; none is picked exactly when none serves; serving is spelt out: rule and trigger switched on, local or global rule, resource, API and arguments |
| QuotaRules.SelectionIff | src/traffic/ratelimit/default.rs:97-105 | a trigger is selected for a resource if and only if it is requested and some rule has a trigger serving it |
| QuotaSessions.ResponsesArePaired | src/traffic/ratelimit/distributed.rs:185-255 | in every interleaving a successful call got the answer to its own request, and a healthy session has at most one request on the wire |
| QuotaSessions.SuccessCarriesItsCommand | src/traffic/ratelimit/distributed.rs:246-253 | in every interleaving, cancellations included, a call that succeeds got an answer with the command of its own request |
| QuotaSessions.OtherCommandFails | src/traffic/ratelimit/distributed.rs:246-253 | an answer with another command fails the call and makes the session unusable |
| QuotaSessions.BrokenCallEndsTheSession | src/traffic/ratelimit/distributed.rs:228-253 | in every interleaving, a call that timed out, lost the stream or got another command's answer leaves the session unusable |
| QuotaSessions.RoundTripSucceeds | src/traffic/ratelimit/distributed.rs:220-255 | on a usable session with an empty wire a served call succeeds with its own answer and leaves the session as it was |
| QuotaSessions.UnusableIsRefused | src/traffic/ratelimit/distributed.rs:220-227 | on an unusable session a call fails at once and sends nothing |
| QuotaSessions.StreamEndIsTold | src/traffic/ratelimit/distributed.rs:185-218 | when the stream ends the waiting call is told |
| QuotaSessions.FailureIsFinal | src/traffic/ratelimit/distributed.rs:213-218 | a failed session never becomes healthy again |
| QuotaSessions.LateSendIff | src/traffic/ratelimit/distributed.rs:220-236 | some continuation of a failed session sends if and only if a call is past the check |
| QuotaSessions.LateRequestIff | src/traffic/ratelimit/distributed.rs:220-236 | a failed session puts at most one more request on the wire, and can if and only if a call is past the check and the channel is open |
| QuotaSessions.NoLateSendWhileReading | src/traffic/ratelimit/distributed.rs:220-255 | unless the stream itself ended, a failed session sends nothing more |
| QuotaSessions.LateSendHappens | src/traffic/ratelimit/distributed.rs:185-236 | a run in which a call sends on a session that failed after its check |
| QuotaSessions.NoLateSuccess | src/traffic/ratelimit/distributed.rs:220-255 | a failed session grants no success but an answer already delivered |
| QuotaSessions.HarmfulCancelMispairs | src/traffic/ratelimit/distributed.rs:220-255 | dropping a call whose request is on the wire of a usable session lets the next call return its answer; `ResponsesArePaired` allows every other cancellation |
| QuotaWindows.WindowRegistry.WindowFor | src/traffic/ratelimit/distributed.rs:656-666 | one window per quota: the stale ones go, the asked one is created or kept, other quotas are untouched |
| QuotaWindows.WindowRegistry.RemoveStaleWindows | src/traffic/ratelimit/distributed.rs:699-719 | exactly the windows of the same quota under another key are removed |
| QuotaWindows.InitialisedOncePerSession | src/traffic/ratelimit/distributed.rs:257-309 | however callers, failures and reconnections interleave, a window is initialised at most once on a session, and of a usable session it remembers exactly whether it was |
| Settlements.CollectGroups | src/traffic/ratelimit/distributed.rs:650-695 | the groups of a lease are taken if and only if the answers agree on the client key and no counter key repeats |
| Settlements.ExpandConsumptions | src/traffic/ratelimit/distributed.rs:842-869 | every counter of a group gets the total of its resource; it is an error exactly when a resource has none |
| Settlements.ExpandedMembers | src/traffic/ratelimit/distributed.rs:842-869 | exactly the counters of the groups are listed, each with its resource's total |
| Settlements.SameConsumptionsIff | src/traffic/ratelimit/distributed.rs:405-413 | the echo of an update is accepted if and only if it lists the same consumptions, as a multiset |
| Settlements.LastLineCounts | src/traffic/ratelimit/distributed.rs:455-488 | a counter is settled by an answer exactly when some line names it, and by the last such line |
| Settlements.SettlementIsExact | src/traffic/ratelimit/distributed.rs:455-488 | with distinct counters a settlement is accepted if and only if it names exactly the counters of the lease, each with the requested total and the rest returned; of several lines for one counter the last is judged |
| Settlements.RepeatedCounterMisleads | src/traffic/ratelimit/distributed.rs:455-488 | with a repeated counter the check passes a settlement of a foreign counter, so the distinctness enforced at reserve is needed |
| Endpoints.EndpointsAreCanonical | src/traffic/ratelimit/distributed.rs:951-978 | the list chosen from depends on the set of available grpc addresses alone |
| Endpoints.AddressIff | src/traffic/ratelimit/distributed.rs:951-966 | an address is available exactly when some available grpc instance has it |
| Endpoints.AtMostIff | src/traffic/ratelimit/distributed.rs:964-965 | the order of the list: a prefix comes first, otherwise the smaller first difference |
| Endpoints.ChoiceIsAvailable | src/traffic/ratelimit/distributed.rs:744-755 | a choice is an available address, is bound, and fails only when there is none |
| Endpoints.EndpointBindings.EndpointFor | src/traffic/ratelimit/distributed.rs:744-755 | fails exactly when no address is available, keeps to a bound endpoint that is, otherwise binds the one at the hash of the affinity, modulo their number, in the ascending list of those that are; no other affinity is touched |
| Endpoints.BoundEndpointStays | src/traffic/ratelimit/distributed.rs:744-755 | over any run of calls a bound endpoint is returned as long as it stays available |
| StableSorting.FirstAfterSort | src/traffic/policy/default.rs:687-691 | the first hit after a stable sort is the hit of least key, earliest on a tie |
| PathTries.PathTrie.Insert | src/traffic/matcher.rs:66-72 | an insert appends at its own path and changes the answer at no other, prefixes included |
| PathTries.PathTrie.ExactCandidates | src/traffic/matcher.rs:74-83 | a lookup returns exactly what was inserted at that path, in order |
| ApiIndexes.MethodApiIndex.Candidates | src/traffic/matcher.rs:122-136 | a bucket reports its pathless, exact and fully matched candidates |
| ApiIndexSpec.GatheredIff | src/traffic/matcher.rs:105-136 | a bucket reports a candidate exactly when one of the APIs filed for it accepts |
| ApiIndexes.ApiMatchIndex.InsertApi | src/traffic/matcher.rs:196-210 | an API is filed in the bucket of its method and in no other |
| ApiIndexes.ApiMatchIndex.constructor | src/traffic/matcher.rs:148-171 | after building, each bucket holds exactly the APIs of the entries for its method, in order |
| ApiIndexSpec.CollectedIff | src/traffic/matcher.rs:173-180 | what is gathered for a request is exactly the accepted entries, under their own order and value |
| ApiIndexes.ApiMatchIndex.Candidates | src/traffic/matcher.rs:173-194 | the answer is the ordered scan of the entries with the matching test of the index, each entry once |
| ApiMatching.IndexAcceptsIff | src/traffic/matcher.rs:218-249 | API by API the index differs from `api_matches` for an exact text path `*` alone |
| ApiMatching.IndexAgreesOnRequest | src/traffic/matcher.rs:173-249 | for one request the index equals the plain scan if and only if no entry matches through such paths only |
| ApiMatching.IndexAgreesIffStarsAreBacked | src/traffic/matcher.rs:218-249 | under every reading of the other pattern kinds the index equals the plain scan for all requests if and only if every such path is backed by an API of the entry that accepts every path |
| ApiMatching.StarPathIsLost | src/plugins/router/rule/helper.rs:142-150 | a rule on the exact path `*` that the scan finds and the index does not |
| SecurityPolicies.EvaluateSecurity | src/traffic/policy/default.rs:683-744 | the decision is that of the deciding enabled rule of least priority, earliest on a tie, and allow without one |
| SecurityPolicies.VerdictIff | src/traffic/policy/default.rs:698-740 | a rule speaks exactly when it is hit and turns the caller away, manages identities or has a governing policy, each spelt out by mode and field, and then says what that form says |
| SecurityPolicies.DecisionIsTheLeadingRules | src/traffic/policy/default.rs:683-744 | the decision is that of the deciding rule of least priority, earliest on a tie; otherwise allow; a hit managed-identity rule always decides |
| SecurityPolicies.LegacyRuleDecides | src/traffic/policy/default.rs:746-759 | a leading hit rule without authentication, or in legacy mode, denies with its first hit policy's effect exactly when either setting is present in legacy mode; otherwise its first hit policy that carries the traffic decides |
| SecurityPolicies.ManagedRuleDecides | src/traffic/policy/default.rs:717-740 | a leading hit rule in managed mode denies without an authenticated caller or with a malformed setting, otherwise allows only a caller some hit policy takes by name or as any authenticated one, and denies with the first policy's effect when none does |
| SecurityPolicies.HeaderRuleDecides | src/traffic/policy/default.rs:764-769 | a leading hit rule in header mode denies with its first hit policy's effect if and only if no header rule is set, a managed identity is set too, or the header is not accepted; otherwise its first hit policy that carries the traffic decides |
| SecurityPolicies.UnknownModeDenies | src/traffic/policy/default.rs:755-771 | a leading hit rule of an unknown mode denies |
| SecurityPolicies.BackedPoliciesAreReadPlainly | src/traffic/policy/default.rs:698-706 | where star paths are backed a policy is hit exactly when the request matches one of its APIs or it lists none |
| SecurityPolicies.StarDenyIsSkipped | src/traffic/policy/default.rs:683-744 | a deny rule on the exact path `*` does not apply to another path |
| TrafficRules.EvaluateMirrors | src/traffic/policy/default.rs:821-864 | the destinations are those of a nested scan of rules and sub-rules, with caller, switch, API, traffic, payload and sampling spelt out |
| TrafficRules.EvaluateMock | src/traffic/policy/default.rs:866-908 | the response is the first one that scan offers |
| TrafficRules.CollectedAreTheOffers | src/traffic/policy/default.rs:821-908 | indexing first and filtering afterwards loses, adds and reorders nothing |
| TrustBundles.IdentityState.ReplaceTrustBundle | src/identity/mod.rs:160-191 | a newer bundle is always installed and an older one refused as a rollback; of the sequence held, one is refused as a rollback when the version differs, installed exactly when domain, issuer, revocations and number of keys agree and every held key is offered again, and otherwise refused as changed; a refusal changes nothing |
| TrustBundles.InclusionIsEquality | src/identity/mod.rs:205-221 | one-way inclusion and equal length make the key sets equal when the held keys are distinct |
| TrustBundles.KeysAreFrozenIffDistinct | src/identity/mod.rs:160-221 | among bundles a server can send, none of the same sequence changes the key set if and only if the held (id, public key) pairs are distinct |
| TrustBundles.HistoryIsStable | src/identity/mod.rs:160-191 | over any run the sequence never falls and, while it stays, neither do content or key set |
| TrustBundles.HeldSequenceIsTheGreatest | src/identity/mod.rs:160-191 | over any run the bundle held is one offered, or the first, and its sequence the greatest of all |
| TrustBundles.SnapshotsOfOneSequenceAgree | src/identity/mod.rs:160-221 | any two snapshots of one history with the same sequence agree |
| CredentialWorkers.CredentialWorker.RunRound | src/core/identity.rs:205-294 | waits while the held credential is usable and not due, for the time until it is, half a minute at most; else asks for one, installs an acceptable reply for a revision still in force, clears what is held when the revision has moved on, and otherwise sleeps, doubling the pause and keeping a usable credential |
| CredentialWorkers.RenewsWhatIsHeld | src/core/identity.rs:300-319 | a renewal sends an installed, unexpired credential of the revision just read |
| CredentialWorkers.EveryRound | src/core/identity.rs:205-294 | waits lie in 1..30 s, a credential is installed only for the revision still current and with renewal before expiry, and the pause after the (k+1)th failure is min(2^k, 30) s |
| CredentialWorkers.BackoffDoubles | src/core/identity.rs:211-290 | the pause doubles with every failure up to half a minute and starts over after a success |
| FaultDetection.BuiltTargetsCount | src/traffic/faultdetect/default.rs:586-610 | the targets of one key carry every task once per available instance and matching plan |
| FaultDetection.BuiltPlansCount | src/traffic/faultdetect/default.rs:530-584 | a plan is built once for every enabled sub-rule of a known protocol that calls for it under a rule with a target |
| FaultDetection.FaultDetectResourceListener.ReloadTargets | src/traffic/faultdetect/default.rs:427-449 | after a reload the running tasks, as a multiset, are what the two snapshots ask for |
| FaultDetection.FaultDetectResourceListener.ApplyEvent | src/traffic/faultdetect/default.rs:394-425 | an event changes its own snapshot entry only and the tasks follow; the plans of changed rules are those their enabled sub-rules call for; none of an older snapshot survives |
| FaultDetection.FaultDetectResourceListener.ApplyEvents | src/traffic/faultdetect/default.rs:394-449 | after any sequence of events the tasks are those of the snapshots the events leave |

## Left out

- QuotaReservation.FailedReserveLeavesNothingLive: one clock reading and no other caller between reservation and rollback, since a rollover or another settlement would show in the same windows; `QuotaTurns.RefusedAmongOthers` covers the leases themselves among other callers.
- QuotaApi.ReserveQuotas: one clock reading for the call, and a refusal without its error code.
- QuotaRequests.ReserveRequest: what the limiter answers is a parameter, and the error of a refusal is not told apart.
- QuotaRequests.RequestIsAllOrNothing: one clock reading and no other caller during the call; `RequestAmongOthers` and `QuotaTurns.RefusedAmongOthers` are about the leases with both.
- QuotaRequests.RequestHoldsWhatIsAsked: one clock reading and no other caller during the call; `RequestAmongOthers` has both.
- RuleConditions.CapIffDistinctWindows: for a repeated length with a looser limit, whether some run passes it depends on how often the other windows roll over meanwhile; which runs do is `InOrderIffRoom`, and that each of them charges a lease too often is `FaithfulIffDistinctWindows`.
- Settlements.SettlementIsExact: an answer with two lines for one counter is read as the program reads it, by the last.
- ApiMatching.IndexAgreesIffStarsAreBacked: necessary for agreement under every reading of the other pattern kinds; under a single reading `IndexAgreesOnRequest` is the exact statement, request by request.
- LeaseCatchUp.RetryMatchesUninterrupted: one clock reading for each of the two calls and no other caller between them, since a settlement made earlier frees quota earlier and others may then be granted more; `RetryCatchesUp` has other callers and says what the call itself achieves.
- LeaseProtocol.RetryCatchesUp: remote limiters are an environment that answers or fails; what they record on a retry is decided by the server.
- QuotaSessions.ResponsesArePaired: the server answers every request once and in order, as the protocol has no other way to pair answers.
- SecurityPolicies.EvaluateSecurity: digest comparison, traffic matching and the extraction of method and path from the request are parameters.
- CredentialWorkers.CredentialWorker.RunRound: one round as one step; what other tasks do to the descriptor between its reads is in the round's inputs.
- QuotaWindows.InitialisedOncePerSession: one window object and the sessions of its endpoint; connecting is one step, as the connect lock makes it.
- Reservation at the limiter (request building, time adjustment, idempotency keys): messages and clocks only.
- The part of the window key text that joins strings with `#`: distinct parts are assumed to give distinct keys.
- Conversion of trust bundles and credentials from wire messages: their checks appear as hypotheses (`Converted`, `wellFormed`).
- Token verification, header injection, signatures and digests: foreign calls.
- Regular expressions, ranges and lists in patterns: any function of pattern and value.
- Probe execution, mirror sending, mock serving and the endpoint server: I/O.
- Initial snapshots of a watched service: the same two insertions and reload as the events, with error logging.
- Rules and instances caches, configuration, discovery, routers, load balancers, circuit breaking, plugins, logging: not part of this model.
