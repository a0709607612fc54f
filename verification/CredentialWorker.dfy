/** The loop that keeps a workload credential fresh, one round at a time. Times are in seconds. */
module CredentialWorkers {
  import opened QuotaTypes

  datatype Credential = Credential(token: string, expiresAt: int, renewAfter: int, revision: string)

  /** What the server sends; `wellFormed` covers its format, binding and non-blank fields. */
  datatype Issued = Issued(
    token: string, wellFormed: bool, bundleVersion: string, issuedAt: int, notBefore: int, renewAfter: int,
    expiresAt: int)

  datatype Descriptor = Descriptor(revision: string, bundleVersion: string)

  datatype Action = Wait(seconds: int) | Issue | Renew(token: string)

  /** What one round meets: the descriptor it reads, the time, the reply if one is asked for, and the
      revision and time it finds afterwards. */
  datatype Round = Round(
    descriptor: Descriptor, now: int, reply: Option<Issued>, revisionAfter: Option<string>, checkedAt: int)

  /** What one round did. */
  datatype Report = Report(action: Action, installed: Option<Credential>, slept: Option<nat>)

  const MAX_BACKOFF: nat := 30

  function Min(a: int, b: int): int {
    if a <= b then a else b
  }

  function RefreshAction(current: Option<Credential>, revision: string, now: int): Action {
    if current.Some? && current.value.revision == revision && current.value.expiresAt > now then
      if current.value.renewAfter > now then Wait(Min(current.value.renewAfter - now, 30))
      else Renew(current.value.token)
    else Issue
  }

  function Validated(issued: Issued, descriptor: Descriptor, now: int): Option<Credential> {
    if !issued.wellFormed || issued.bundleVersion != descriptor.bundleVersion || issued.notBefore > issued.issuedAt
      || issued.renewAfter < issued.issuedAt || issued.renewAfter >= issued.expiresAt || issued.expiresAt <= now
    then None
    else Some(Credential(issued.token, issued.expiresAt, issued.renewAfter, descriptor.revision))
  }

  /** The credential is for this revision and has not expired. */
  predicate Usable(credential: Option<Credential>, revision: string, now: int) {
    credential.Some? && credential.value.revision == revision && now < credential.value.expiresAt
  }

  /** A reply that may be installed: well formed, for the bundle in force, and with its times in order. */
  predicate Acceptable(issued: Issued, descriptor: Descriptor, now: int) {
    && issued.wellFormed && issued.bundleVersion == descriptor.bundleVersion
    && issued.notBefore <= issued.issuedAt <= issued.renewAfter < issued.expiresAt && now < issued.expiresAt
  }

  /** The revision the round read is still in force when the reply has come. */
  predicate StillCurrent(round: Round) {
    round.revisionAfter == Some(round.descriptor.revision)
  }

  class CredentialWorker {
    var credential: Option<Credential>
    var backoff: nat

    constructor ()
      ensures credential == None && backoff == 1
    {
      credential, backoff := None, 1;
    }

    /** Waits while the credential held is usable and not due, for the time until then but half a minute at
        most; otherwise asks for one. A reply for a revision
        no longer in force clears what is held; an acceptable one is installed; and after any other the
        worker sleeps, with a usable credential kept. */
    method RunRound(round: Round) returns (report: Report)
      modifies this
      ensures report.action.Wait? <==>
        Usable(old(credential), round.descriptor.revision, round.now) && round.now < old(credential).value.renewAfter
      ensures report.action.Wait? ==>
        var untilDue := old(credential).value.renewAfter - round.now;
        report.action.seconds == if untilDue < 30 then untilDue else 30
      ensures report.action.Renew? ==>
        && Usable(old(credential), round.descriptor.revision, round.now)
        && report.action.token == old(credential).value.token
      ensures report.action.Issue? ==> !Usable(old(credential), round.descriptor.revision, round.now)
      ensures report.action.Wait? ==>
        credential == old(credential) && backoff == old(backoff) && report.installed == None && report.slept == None
      ensures report.installed.Some? <==>
        && !report.action.Wait? && StillCurrent(round)
        && round.reply.Some? && Acceptable(round.reply.value, round.descriptor, round.checkedAt)
      ensures report.installed.Some? ==>
        && credential == report.installed && backoff == 1 && report.slept == None
        && credential.value.token == round.reply.value.token
        && Usable(credential, round.descriptor.revision, round.checkedAt)
        && credential.value.renewAfter < credential.value.expiresAt
      ensures !report.action.Wait? && !StillCurrent(round) ==>
        credential == None && backoff == old(backoff) && report.slept == None
      ensures !report.action.Wait? && StillCurrent(round) && report.installed == None ==>
        && report.slept == Some(old(backoff)) && backoff == Min(2 * old(backoff), MAX_BACKOFF)
        && credential == if report.action.Renew? then old(credential) else None
      ensures (State(credential, backoff), report) == AfterRound(State(old(credential), old(backoff)), round)
    {
      var action := RefreshAction(credential, round.descriptor.revision, round.now);
      if action.Wait? {
        return Report(action, None, None);
      }
      if action.Issue? {
        credential := None;
      }
      if round.revisionAfter != Some(round.descriptor.revision) {
        credential := None;
        return Report(action, None, None);
      }
      var validated :=
        if round.reply.None? then None else Validated(round.reply.value, round.descriptor, round.checkedAt);
      if validated.Some? {
        credential, backoff := validated, 1;
        return Report(action, validated, None);
      }
      report := Report(action, None, Some(backoff));
      backoff := Min(backoff * 2, MAX_BACKOFF);
    }
  }

  datatype State = State(credential: Option<Credential>, backoff: nat)

  const START: State := State(None, 1)

  /** One round as a function of what it meets. */
  function AfterRound(s: State, round: Round): (State, Report) {
    var action := RefreshAction(s.credential, round.descriptor.revision, round.now);
    if action.Wait? then (s, Report(action, None, None))
    else if round.revisionAfter != Some(round.descriptor.revision) then
      (s.(credential := None), Report(action, None, None))
    else
      var validated :=
        if round.reply.None? then None else Validated(round.reply.value, round.descriptor, round.checkedAt);
      if validated.Some? then (State(validated, 1), Report(action, validated, None))
      else (State(if action.Issue? then None else s.credential, Min(s.backoff * 2, MAX_BACKOFF)),
        Report(action, None, Some(s.backoff)))
  }

  function AfterRounds(rounds: seq<Round>): State {
    if rounds == [] then START else AfterRound(AfterRounds(rounds[..|rounds| - 1]), rounds[|rounds| - 1]).0
  }

  /** What the last round of a run did. */
  function LastReport(rounds: seq<Round>): Report
    requires rounds != []
  {
    AfterRound(AfterRounds(rounds[..|rounds| - 1]), rounds[|rounds| - 1]).1
  }

  /** Failures since the last success: the rounds that slept, after the last that installed. */
  function Failures(rounds: seq<Round>): nat {
    if rounds == [] then 0
    else
      var report := LastReport(rounds);
      if report.installed.Some? then 0 else Failures(rounds[..|rounds| - 1]) + if report.slept.Some? then 1 else 0
  }

  function Pow2(k: nat): (p: nat)
    ensures p >= 1
  {
    if k == 0 then 1 else 2 * Pow2(k - 1)
  }

  /** Every credential held is one that some round of the run installed. */
  ghost predicate Installed(rounds: seq<Round>, credential: Credential) {
    exists n :: 0 < n <= |rounds| && LastReport(rounds[..n]).installed == Some(credential)
  }

  lemma {:induction false} HeldWasInstalled(rounds: seq<Round>)
    ensures AfterRounds(rounds).credential.Some? ==> Installed(rounds, AfterRounds(rounds).credential.value)
  {
    if rounds != [] {
      var init := rounds[..|rounds| - 1];
      HeldWasInstalled(init);
      var held := AfterRounds(rounds).credential;
      assert rounds[..|rounds|] == rounds;
      if held.Some? && LastReport(rounds).installed != held {
        var n :| 0 < n <= |init| && LastReport(init[..n]).installed == held;
        assert init[..n] == rounds[..n];
      }
    }
  }

  /** The pause grows as the powers of two up to half a minute and starts over after a success. */
  lemma {:induction false} BackoffDoubles(rounds: seq<Round>)
    ensures AfterRounds(rounds).backoff == Min(Pow2(Failures(rounds)), MAX_BACKOFF)
  {
    if rounds != [] {
      BackoffDoubles(rounds[..|rounds| - 1]);
    }
  }

  /** A renewal sends the credential held: installed by an earlier round, for the revision just read,
      due for renewal and not expired. */
  lemma RenewsWhatIsHeld(rounds: seq<Round>)
    requires rounds != [] && LastReport(rounds).action.Renew?
    ensures
      var init, round := rounds[..|rounds| - 1], rounds[|rounds| - 1];
      exists held: Credential ::
        && Installed(init, held) && held.token == LastReport(rounds).action.token
        && held.revision == round.descriptor.revision && held.renewAfter <= round.now < held.expiresAt
  {
    HeldWasInstalled(rounds[..|rounds| - 1]);
  }

  /** What every round of every run does. A wait lasts between one and thirty seconds; a credential is
      installed only for the revision still current, with its renewal before its expiry; and the sleep
      after the (k+1)th failure since a success is the kth power of two, thirty at most. */
  lemma EveryRound(rounds: seq<Round>)
    requires rounds != []
    ensures
      var init, round, report := rounds[..|rounds| - 1], rounds[|rounds| - 1], LastReport(rounds);
      && (report.action.Wait? ==> 1 <= report.action.seconds <= 30 && report.installed.None? && report.slept.None?)
      && (report.installed.Some? ==>
            && round.revisionAfter == Some(report.installed.value.revision) == Some(round.descriptor.revision)
            && report.installed.value.renewAfter < report.installed.value.expiresAt
            && round.checkedAt < report.installed.value.expiresAt)
      && (report.slept.Some? ==> report.slept.value == Min(Pow2(Failures(init)), MAX_BACKOFF))
  {
    BackoffDoubles(rounds[..|rounds| - 1]);
  }
}
