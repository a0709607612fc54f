/** One stream to a quota limiter, shared by concurrent callers, a reader task and a server that
    answers each request once and in order. Every step is one the tasks can take between two awaits;
    a run is any interleaving of them. */
module QuotaSessions {
  import opened QuotaTypes

  datatype Request = Request(caller: nat, cmd: nat)

  /** An answer carries the caller whose request it answers; the protocol itself only has `cmd`. */
  datatype Answer = Answer(caller: nat, cmd: nat)

  datatype Failure = Unavailable | StreamFailed | TimedOut | OutOfOrder | Cancelled
  datatype Outcome = Success(answer: Answer) | Failed(failure: Failure)

  /** Where the caller that holds the request lock is. */
  datatype Phase =
    | Entered
    | Checked
    | Registered
    | Waiting
    | Failing(failure: Failure)
    | Clearing(failure: Failure)

  /** The holder's one-shot channel. */
  datatype Slot = Empty | Filled(outcome: Outcome)

  datatype Holder = Holder(caller: nat, cmd: nat, phase: Phase, slot: Slot)

  datatype Reader = Running | Stopping | Stopped

  datatype Session = Session(
    healthy: bool,
    open: bool,
    pending: Option<nat>,
    holder: Option<Holder>,
    reader: Reader,
    sent: seq<Request>,
    answers: seq<Answer>,
    results: map<nat, Outcome>)

  const FRESH: Session := Session(true, true, None, None, Running, [], [], map[])

  datatype Step =
    | Acquire(caller: nat, cmd: nat)
    | Check
    | Register
    | Send
    | Receive
    | TimeOut
    | MarkUnhealthy
    | Clear
    | Cancel
    | Serve(cmd: nat)
    | Deliver
    | StreamEnds
    | ReaderClears
    | ChannelCloses

  predicate InPhase(s: Session, phase: Phase) {
    s.holder.Some? && s.holder.value.phase == phase
  }

  predicate Enabled(s: Session, step: Step) {
    match step
    case Acquire(caller, _) => s.holder.None? && caller !in s.results
    case Check => InPhase(s, Entered)
    case Register => InPhase(s, Checked)
    case Send => InPhase(s, Registered)
    case Receive => InPhase(s, Waiting) && s.holder.value.slot.Filled?
    case TimeOut => InPhase(s, Waiting)
    case MarkUnhealthy => s.holder.Some? && s.holder.value.phase.Failing?
    case Clear => s.holder.Some? && s.holder.value.phase.Clearing?
    case Cancel => s.holder.Some? && !s.holder.value.phase.Failing?
    case Serve(_) => s.sent != []
    case Deliver => s.reader == Running && s.answers != []
    case StreamEnds => s.reader == Running
    case ReaderClears => s.reader == Stopping
    case ChannelCloses => true
  }

  function At(s: Session, phase: Phase): Session
    requires s.holder.Some?
  {
    s.(holder := Some(s.holder.value.(phase := phase)))
  }

  function Returns(s: Session, outcome: Outcome): Session
    requires s.holder.Some?
  {
    s.(holder := None, results := s.results[s.holder.value.caller := outcome])
  }

  /** Taking the pending sender, if any, and sending the outcome through it; a receiver that is gone
      loses it. */
  function Resolve(s: Session, outcome: Outcome): Session {
    var taken := s.(pending := None);
    if s.pending.Some? && s.holder.Some? && s.holder.value.caller == s.pending.value
    then taken.(holder := Some(s.holder.value.(slot := Filled(outcome))))
    else taken
  }

  function Next(s: Session, step: Step): Session
    requires Enabled(s, step)
  {
    match step
    case Acquire(caller, cmd) => s.(holder := Some(Holder(caller, cmd, Entered, Empty)))
    case Check => if s.healthy && s.open then At(s, Checked) else Returns(s, Failed(Unavailable))
    case Register => At(s, Registered).(pending := Some(s.holder.value.caller))
    case Send =>
      if s.open then At(s, Waiting).(sent := s.sent + [Request(s.holder.value.caller, s.holder.value.cmd)])
      else At(s, Failing(Unavailable))
    case Receive =>
      (match s.holder.value.slot.outcome
       case Success(answer) =>
         if answer.cmd == s.holder.value.cmd then Returns(s, Success(answer)) else At(s, Failing(OutOfOrder))
       case Failed(failure) => Returns(s, Failed(failure)))
    case TimeOut => At(s, Failing(TimedOut))
    case MarkUnhealthy => At(s, Clearing(s.holder.value.phase.failure)).(healthy := false)
    case Clear => Returns(s, Failed(s.holder.value.phase.failure)).(pending := None)
    case Cancel => Returns(s, Failed(Cancelled))
    case Serve(cmd) => s.(sent := s.sent[1..], answers := s.answers + [Answer(s.sent[0].caller, cmd)])
    case Deliver => Resolve(s, Success(s.answers[0])).(answers := s.answers[1..])
    case StreamEnds => s.(healthy := false, reader := Stopping)
    case ReaderClears => Resolve(s, Failed(StreamFailed)).(reader := Stopped)
    case ChannelCloses => s.(open := false)
  }

  predicate Possible(s: Session, steps: seq<Step>)
    decreases |steps|
  {
    steps == [] || (Enabled(s, steps[0]) && Possible(Next(s, steps[0]), steps[1..]))
  }

  function Run(s: Session, steps: seq<Step>): Session
    requires Possible(s, steps)
    decreases |steps|
  {
    if steps == [] then s else Run(Next(s, steps[0]), steps[1..])
  }

  /** Requests sent and answers not yet read. */
  function OnWire(s: Session): nat {
    |s.sent| + |s.answers|
  }

  /** Whatever is on the wire, when it is a single request, is the caller's. */
  predicate WireIsOf(s: Session, caller: nat) {
    (s.sent != [] ==> s.sent[0].caller == caller) && (s.answers != [] ==> s.answers[0].caller == caller)
  }

  predicate OwnAnswer(outcome: Outcome, caller: nat) {
    outcome.Success? ==> outcome.answer.caller == caller
  }

  /** The sender in `pending` is the holder's. */
  predicate Mine(s: Session) {
    s.pending.Some? && s.holder.Some? && s.pending.value == s.holder.value.caller
  }

  /** Dropping the call in progress leaves nothing for the next one to mistake for its answer. */
  predicate CancelIsHarmless(s: Session) {
    !s.healthy || !s.open || OnWire(s) == 0
  }

  /** No call is dropped inside `round_trip`, except where that is harmless. */
  predicate Orderly(s: Session, steps: seq<Step>)
    requires Possible(s, steps)
    decreases |steps|
  {
    steps == [] || ((steps[0] == Cancel ==> CancelIsHarmless(s)) && Orderly(Next(s, steps[0]), steps[1..]))
  }

  /** What every state of an orderly run satisfies. */
  predicate Sound(s: Session) {
    && (forall c :: c in s.results ==> OwnAnswer(s.results[c], c))
    && (s.holder.Some? && s.holder.value.slot.Filled? ==> OwnAnswer(s.holder.value.slot.outcome, s.holder.value.caller))
    && (s.reader != Running || (s.holder.Some? && s.holder.value.phase.Clearing?) ==> !s.healthy)
    && (s.holder.Some? ==> s.holder.value.caller !in s.results)
    && (Mine(s) ==> s.holder.value.phase !in {Entered, Checked})
    && (s.pending.Some? && !Mine(s) ==> s.pending.value in s.results)
    && (s.holder.Some? && s.holder.value.slot.Filled? ==>
          !Mine(s) && s.holder.value.phase !in {Entered, Checked})
    && (InPhase(s, Registered) && s.holder.value.slot.Filled? ==> s.holder.value.slot.outcome.Failed?)
    && (s.reader == Running ==> Paired(s))
  }

  /** While the reader runs: one request on the wire at most, and the holder's if a sender is pending;
      none when a usable session is between requests; and an unhealthy session sends nothing. */
  predicate Paired(s: Session) {
    && OnWire(s) <= 1
    && (Mine(s) ==> WireIsOf(s, s.pending.value))
    && (s.healthy && s.open && (s.holder.None? || s.holder.value.phase == Entered) ==> OnWire(s) == 0)
    && (s.healthy && s.holder.Some? && s.holder.value.phase in {Checked, Registered} ==> OnWire(s) == 0)
    && (s.healthy && s.holder.Some? && s.holder.value.slot.Filled? ==> OnWire(s) == 0)
    && (s.holder.Some? && s.holder.value.phase !in {Entered, Checked} && s.holder.value.slot == Empty ==> Mine(s))
    && (s.holder.Some? && s.holder.value.slot.Filled? ==> s.holder.value.phase != Registered)
    && (!s.healthy ==> s.holder.None? || s.holder.value.phase == Entered || s.holder.value.phase.Clearing?)
  }

  lemma EnteringKeepsSound(s: Session, step: Step)
    requires Sound(s) && Enabled(s, step) && (step.Acquire? || step == Check || step == Register)
    ensures Sound(Next(s, step))
  {
  }

  lemma SendKeepsSound(s: Session)
    requires Sound(s) && Enabled(s, Send)
    ensures Sound(Next(s, Send))
  {
  }

  lemma ReceiveKeepsSound(s: Session)
    requires Sound(s) && Enabled(s, Receive)
    ensures Sound(Next(s, Receive))
  {
  }

  lemma FailingKeepsSound(s: Session, step: Step)
    requires Sound(s) && Enabled(s, step) && step in {TimeOut, MarkUnhealthy}
    ensures Sound(Next(s, step))
  {
  }

  lemma ClearKeepsSound(s: Session)
    requires Sound(s) && Enabled(s, Clear)
    ensures Sound(Next(s, Clear))
  {
  }

  lemma CancelKeepsSound(s: Session)
    requires Sound(s) && Enabled(s, Cancel) && CancelIsHarmless(s)
    ensures Sound(Next(s, Cancel))
  {
  }

  lemma DeliverKeepsSound(s: Session)
    requires Sound(s) && Enabled(s, Deliver)
    ensures Sound(Next(s, Deliver))
  {
  }

  lemma ServerStepKeepsSound(s: Session, step: Step)
    requires Sound(s) && Enabled(s, step) && (step.Serve? || step == ChannelCloses)
    ensures Sound(Next(s, step))
  {
  }

  lemma ReaderEndKeepsSound(s: Session, step: Step)
    requires Sound(s) && Enabled(s, step) && step in {StreamEnds, ReaderClears}
    ensures Sound(Next(s, step))
  {
  }

  lemma StepKeepsSound(s: Session, step: Step)
    requires Sound(s) && Enabled(s, step) && (step == Cancel ==> CancelIsHarmless(s))
    ensures Sound(Next(s, step))
  {
    match step
    case Acquire(_, _) => EnteringKeepsSound(s, step);
    case Check => EnteringKeepsSound(s, step);
    case Register => EnteringKeepsSound(s, step);
    case Send => SendKeepsSound(s);
    case Receive => ReceiveKeepsSound(s);
    case TimeOut => FailingKeepsSound(s, step);
    case MarkUnhealthy => FailingKeepsSound(s, step);
    case Clear => ClearKeepsSound(s);
    case Cancel => CancelKeepsSound(s);
    case Serve(_) => ServerStepKeepsSound(s, step);
    case Deliver => DeliverKeepsSound(s);
    case StreamEnds => ReaderEndKeepsSound(s, step);
    case ReaderClears => ReaderEndKeepsSound(s, step);
    case ChannelCloses => ServerStepKeepsSound(s, step);
  }

  lemma {:induction false} RunKeepsSound(s: Session, steps: seq<Step>)
    requires Sound(s) && Possible(s, steps) && Orderly(s, steps)
    ensures Sound(Run(s, steps))
    decreases |steps|
  {
    if steps != [] {
      StepKeepsSound(s, steps[0]);
      RunKeepsSound(Next(s, steps[0]), steps[1..]);
    }
  }

  /** In every interleaving, a call that succeeds got the answer to its own request, and a healthy
      session never has two requests on the wire. */
  lemma ResponsesArePaired(steps: seq<Step>)
    requires Possible(FRESH, steps) && Orderly(FRESH, steps)
    ensures
      var s := Run(FRESH, steps);
      && (forall c :: c in s.results && s.results[c].Success? ==> s.results[c].answer.caller == c)
      && (s.healthy ==> OnWire(s) <= 1)
  {
    RunKeepsSound(FRESH, steps);
  }

  // ---------- what a single call gets ----------

  /** The call in progress has no result yet. */
  predicate Unanswered(s: Session) {
    s.holder.Some? ==> s.holder.value.caller !in s.results
  }

  predicate InProgress(s: Session, caller: nat) {
    s.holder.Some? && s.holder.value.caller == caller
  }

  lemma {:induction false} CalledOnce(s: Session, steps: seq<Step>, caller: nat)
    requires Possible(s, steps) && Unanswered(s) && (InProgress(s, caller) || caller in s.results)
    ensures forall cmd :: Acquire(caller, cmd) !in steps
    ensures caller in s.results ==>
      caller in Run(s, steps).results && Run(s, steps).results[caller] == s.results[caller]
    decreases |steps|
  {
    if steps != [] {
      CalledOnce(Next(s, steps[0]), steps[1..], caller);
      assert steps == [steps[0]] + steps[1..];
    }
  }

  lemma {:induction false} AnsweredAsAsked(s: Session, steps: seq<Step>, caller: nat)
    requires Possible(s, steps) && Unanswered(s) && caller !in s.results
    requires caller in Run(s, steps).results && Run(s, steps).results[caller].Success?
    ensures
      var cmd := Run(s, steps).results[caller].answer.cmd;
      if InProgress(s, caller) then s.holder.value.cmd == cmd
      else forall asked :: Acquire(caller, asked) in steps <==> asked == cmd
    decreases |steps|
  {
    var next, rest := Next(s, steps[0]), steps[1..];
    assert steps == [steps[0]] + rest;
    if caller in next.results || InProgress(next, caller) {
      CalledOnce(next, rest, caller);
    }
    if caller !in next.results {
      AnsweredAsAsked(next, rest, caller);
    }
  }

  /** In every interleaving, cancellations included, a call that succeeds was made once and got an answer with
      the command of its request. */
  lemma SuccessCarriesItsCommand(steps: seq<Step>, caller: nat)
    requires Possible(FRESH, steps) && caller in Run(FRESH, steps).results
    requires Run(FRESH, steps).results[caller].Success?
    ensures forall cmd :: Acquire(caller, cmd) in steps <==> cmd == Run(FRESH, steps).results[caller].answer.cmd
  {
    AnsweredAsAsked(FRESH, steps, caller);
  }

  /** The failures after which the answers on the stream could no longer be told apart. */
  predicate Breaks(failure: Failure) {
    failure == TimedOut || failure == OutOfOrder || failure == StreamFailed
  }

  predicate Broken(s: Session) {
    && (forall c :: c in s.results && s.results[c].Failed? && Breaks(s.results[c].failure) ==> !s.healthy)
    && (s.holder.Some? && s.holder.value.phase.Clearing? ==> !s.healthy)
    && (s.holder.Some? && s.holder.value.slot.Filled? && s.holder.value.slot.outcome.Failed? ==> !s.healthy)
    && (s.reader != Running ==> !s.healthy)
  }

  lemma {:induction false} BreaksStay(s: Session, steps: seq<Step>)
    requires Possible(s, steps) && Broken(s)
    ensures Broken(Run(s, steps))
    decreases |steps|
  {
    if steps != [] {
      BreaksStay(Next(s, steps[0]), steps[1..]);
    }
  }

  /** In every interleaving, a call that timed out, lost the stream or got an answer to another command has left
      the session unusable. */
  lemma BrokenCallEndsTheSession(steps: seq<Step>, caller: nat)
    requires Possible(FRESH, steps) && caller in Run(FRESH, steps).results
    requires var outcome := Run(FRESH, steps).results[caller]; outcome.Failed? && Breaks(outcome.failure)
    ensures !Run(FRESH, steps).healthy
  {
    BreaksStay(FRESH, steps);
  }

  /** An answer with another command is never returned: the call fails and takes the session with it. */
  lemma OtherCommandFails(s: Session)
    requires Enabled(s, Receive) && s.holder.value.slot.outcome.Success?
    requires s.holder.value.slot.outcome.answer.cmd != s.holder.value.cmd
    ensures Possible(s, [Receive, MarkUnhealthy, Clear])
    ensures var after := Run(s, [Receive, MarkUnhealthy, Clear]);
            && !after.healthy && after.holder == None && after.pending == None
            && after.results == s.results[s.holder.value.caller := Failed(OutOfOrder)]
  {
    assert [Receive, MarkUnhealthy, Clear][1..] == [MarkUnhealthy, Clear] && [MarkUnhealthy, Clear][1..] == [Clear];
    var failing := Next(s, Receive);
    var clearing := Next(failing, MarkUnhealthy);
    assert [Clear][1..] == [] && Run(clearing, [Clear]) == Next(clearing, Clear);
    assert Possible(failing, [MarkUnhealthy, Clear]);
  }

  /** Failure is final: an unhealthy session stays unhealthy and a stopped reader stays stopped. */
  lemma {:induction false} FailureIsFinal(s: Session, steps: seq<Step>)
    requires Possible(s, steps) && !s.healthy
    ensures !Run(s, steps).healthy
    ensures s.reader == Stopped ==> Run(s, steps).reader == Stopped
    decreases |steps|
  {
    if steps != [] {
      FailureIsFinal(Next(s, steps[0]), steps[1..]);
    }
  }

  function Sends(steps: seq<Step>): nat {
    if steps == [] then 0 else (if steps[0] == Send then 1 else 0) + Sends(steps[1..])
  }

  predicate PastTheCheck(s: Session) {
    s.holder.Some? && s.holder.value.phase in {Checked, Registered}
  }

  /** After a failure only a call already past the check still sends, once. */
  lemma {:induction false} AtMostOneLateSend(s: Session, steps: seq<Step>)
    requires Possible(s, steps) && !s.healthy
    ensures Sends(steps) <= if PastTheCheck(s) then 1 else 0
    decreases |steps|
  {
    if steps != [] {
      AtMostOneLateSend(Next(s, steps[0]), steps[1..]);
    }
  }

  /** Whether a failed session can still send is whether a call is past the check. */
  lemma LateSendIff(s: Session)
    requires !s.healthy
    ensures (exists later :: Possible(s, later) && Sends(later) > 0) <==> PastTheCheck(s)
  {
    if PastTheCheck(s) {
      var later := LateSteps(s);
      assert Possible(s, later) && Sends(later) > 0;
    }
    forall later | Possible(s, later)
      ensures Sends(later) <= if PastTheCheck(s) then 1 else 0
    {
      AtMostOneLateSend(s, later);
    }
  }

  /** How many of the steps put a request on the wire. */
  function Written(s: Session, steps: seq<Step>): nat
    requires Possible(s, steps)
    decreases |steps|
  {
    if steps == [] then 0
    else
      var next := Next(s, steps[0]);
      (if |next.sent| > |s.sent| then 1 else 0) + Written(next, steps[1..])
  }

  /** What the call past the check does next, up to sending. */
  lemma LateSteps(s: Session) returns (later: seq<Step>)
    requires !s.healthy && PastTheCheck(s)
    ensures Possible(s, later) && Sends(later) == 1 && (s.open ==> Written(s, later) == 1)
  {
    if InPhase(s, Registered) {
      later := [Send];
    } else {
      later := [Register, Send];
      assert later[1..] == [Send];
    }
  }

  lemma {:induction false} AtMostOneLateRequest(s: Session, steps: seq<Step>)
    requires Possible(s, steps) && !s.healthy
    ensures Written(s, steps) <= if PastTheCheck(s) && s.open then 1 else 0
    decreases |steps|
  {
    if steps != [] {
      AtMostOneLateRequest(Next(s, steps[0]), steps[1..]);
    }
  }

  /** A failed session puts one more request on the wire at most, and can exactly when a call is past the
      check and the channel still open. */
  lemma LateRequestIff(s: Session)
    requires !s.healthy
    ensures (exists later :: Possible(s, later) && Written(s, later) > 0) <==> PastTheCheck(s) && s.open
    ensures forall later :: Possible(s, later) ==> Written(s, later) <= 1
  {
    if PastTheCheck(s) && s.open {
      var later := LateSteps(s);
      assert Possible(s, later) && Written(s, later) > 0;
    }
    forall later | Possible(s, later)
      ensures Written(s, later) <= if PastTheCheck(s) && s.open then 1 else 0
    {
      AtMostOneLateRequest(s, later);
    }
  }

  /** So a session that failed for any reason but the end of the stream sends nothing more. */
  lemma NoLateSendWhileReading(steps: seq<Step>, later: seq<Step>)
    requires Possible(FRESH, steps) && Orderly(FRESH, steps)
    requires var s := Run(FRESH, steps); !s.healthy && s.reader == Running && Possible(s, later)
    ensures Sends(later) == 0
  {
    RunKeepsSound(FRESH, steps);
    AtMostOneLateSend(Run(FRESH, steps), later);
  }

  /** The holder can still return a success it has already been sent. */
  predicate AnswerAtHand(s: Session, caller: nat) {
    && s.holder.Some? && s.holder.value.caller == caller && s.holder.value.phase == Waiting
    && s.holder.value.slot.Filled? && s.holder.value.slot.outcome.Success?
  }

  lemma StepGrantsNothingLate(s: Session, step: Step, caller: nat)
    requires Sound(s) && Enabled(s, step) && !s.healthy && caller !in s.results
    ensures AnswerAtHand(Next(s, step), caller) ==> AnswerAtHand(s, caller)
    ensures caller in Next(s, step).results && Next(s, step).results[caller].Success? ==> AnswerAtHand(s, caller)
  {
  }

  lemma StepKeepsResult(s: Session, step: Step, caller: nat)
    requires Sound(s) && Enabled(s, step) && caller in s.results
    ensures caller in Next(s, step).results && Next(s, step).results[caller] == s.results[caller]
  {
  }

  /** A failed session grants no further success, but for an answer already delivered. */
  lemma {:induction false} NoLateSuccess(s: Session, steps: seq<Step>, caller: nat)
    requires Sound(s) && Possible(s, steps) && Orderly(s, steps) && !s.healthy
    requires caller !in s.results && caller in Run(s, steps).results && Run(s, steps).results[caller].Success?
    ensures AnswerAtHand(s, caller)
    decreases |steps|
  {
    var next := Next(s, steps[0]);
    StepKeepsSound(s, steps[0]);
    StepGrantsNothingLate(s, steps[0], caller);
    if caller in next.results {
      ResultsStay(next, steps[1..], caller);
    } else {
      NoLateSuccess(next, steps[1..], caller);
    }
  }

  lemma {:induction false} ResultsStay(s: Session, steps: seq<Step>, caller: nat)
    requires Sound(s) && Possible(s, steps) && Orderly(s, steps) && caller in s.results
    ensures caller in Run(s, steps).results && Run(s, steps).results[caller] == s.results[caller]
    decreases |steps|
  {
    if steps != [] {
      StepKeepsSound(s, steps[0]);
      StepKeepsResult(s, steps[0], caller);
      ResultsStay(Next(s, steps[0]), steps[1..], caller);
    }
  }

  lemma {:induction false} RunsJoin(s: Session, first: seq<Step>, second: seq<Step>)
    requires Possible(s, first) && Possible(Run(s, first), second)
    ensures Possible(s, first + second) && Run(s, first + second) == Run(Run(s, first), second)
    decreases |first|
  {
    if first == [] {
      assert first + second == second;
    } else {
      RunsJoin(Next(s, first[0]), first[1..], second);
      assert (first + second)[1..] == first[1..] + second;
    }
  }

  /** What the next call does, up to sending. */
  function Asks(caller: nat, cmd: nat): seq<Step> {
    [Acquire(caller, cmd), Check, Register, Send]
  }

  /** A call that sends on a usable session. */
  lemma CallSends(s: Session, caller: nat, cmd: nat)
    requires s.healthy && s.open && s.holder.None? && caller !in s.results
    ensures Possible(s, Asks(caller, cmd))
    ensures Run(s, Asks(caller, cmd)) ==
      s.(pending := Some(caller), holder := Some(Holder(caller, cmd, Waiting, Empty)),
        sent := s.sent + [Request(caller, cmd)])
  {
    var steps := Asks(caller, cmd);
    assert steps[1..] == [Check, Register, Send] && steps[1..][1..] == [Register, Send]
      && steps[1..][1..][1..] == [Send];
    var entered := Next(s, Acquire(caller, cmd));
    var checked := Next(entered, Check);
    var registered := Next(checked, Register);
    assert [Send][1..] == [] && Run(registered, [Send]) == Next(registered, Send);
    assert Possible(checked, [Register, Send]) && Possible(entered, [Check, Register, Send]);
  }

  /** The next answer on the wire goes to the waiting call, which takes it when the command fits. */
  lemma CallReceives(s: Session, caller: nat)
    requires s.reader == Running && s.answers != [] && s.pending == Some(caller)
    requires s.holder == Some(Holder(caller, s.answers[0].cmd, Waiting, Empty))
    ensures Possible(s, [Deliver, Receive])
    ensures Run(s, [Deliver, Receive]).results == s.results[caller := Success(s.answers[0])]
  {
    assert [Deliver, Receive][1..] == [Receive];
  }

  /** On a usable session with nothing on the wire a call that is served gets its own answer, and the session is
      as it was. */
  lemma RoundTripSucceeds(s: Session, caller: nat, cmd: nat)
    requires s.healthy && s.open && s.reader == Running && s.holder.None? && caller !in s.results && OnWire(s) == 0
    ensures
      var steps := Asks(caller, cmd) + ([Serve(cmd)] + [Deliver, Receive]);
      && Possible(s, steps)
      && Run(s, steps) == s.(pending := None, results := s.results[caller := Success(Answer(caller, cmd))])
  {
    CallSends(s, caller, cmd);
    var asked := Run(s, Asks(caller, cmd));
    var served := Next(asked, Serve(cmd));
    assert asked.sent == [Request(caller, cmd)] && asked.sent[1..] == [] && s.sent == [] && s.answers == [];
    assert served.answers == [Answer(caller, cmd)] && served.answers[1..] == [];
    assert [Serve(cmd)][1..] == [] && Run(asked, [Serve(cmd)]) == served;
    CallReceives(served, caller);
    assert [Deliver, Receive][1..] == [Receive] && [Receive][1..] == [];
    RunsJoin(asked, [Serve(cmd)], [Deliver, Receive]);
    RunsJoin(s, Asks(caller, cmd), [Serve(cmd)] + [Deliver, Receive]);
  }

  /** On an unusable session a call fails at once, sends nothing and leaves the session as it is. */
  lemma UnusableIsRefused(s: Session, caller: nat, cmd: nat)
    requires (!s.healthy || !s.open) && s.holder.None? && caller !in s.results
    ensures Possible(s, [Acquire(caller, cmd), Check])
    ensures Run(s, [Acquire(caller, cmd), Check]) == s.(results := s.results[caller := Failed(Unavailable)])
  {
    assert [Acquire(caller, cmd), Check][1..] == [Check] && [Check][1..] == [];
  }

  /** When the stream ends, the call waiting for an answer is told so. */
  lemma StreamEndIsTold(s: Session, caller: nat, cmd: nat)
    requires s.reader == Running && s.pending == Some(caller) && s.holder == Some(Holder(caller, cmd, Waiting, Empty))
    ensures Possible(s, [StreamEnds, ReaderClears, Receive])
    ensures var after := Run(s, [StreamEnds, ReaderClears, Receive]);
            && !after.healthy && after.reader == Stopped && after.holder == None
            && after.results == s.results[caller := Failed(StreamFailed)]
  {
    var steps := [StreamEnds, ReaderClears, Receive];
    assert steps[1..] == [ReaderClears, Receive] && steps[1..][1..] == [Receive] && [Receive][1..] == [];
    var ended := Next(s, StreamEnds);
    assert Possible(Next(ended, ReaderClears), [Receive]) && Possible(ended, [ReaderClears, Receive]);
  }

  /** What makes the next call take the answer left on the wire for its own. */
  function Mistaking(s: Session, caller: nat): seq<Step>
    requires OnWire(s) > 0
  {
    if s.answers != [] then Asks(caller, s.answers[0].cmd) + [Deliver, Receive]
    else [Serve(s.sent[0].cmd)] + (Asks(caller, s.sent[0].cmd) + [Deliver, Receive])
  }

  /** A request left on the wire of a usable session between calls is answered to the next call. */
  lemma LeftoverIsMistaken(s: Session, caller: nat)
    requires s.healthy && s.open && s.reader == Running && s.holder.None? && caller !in s.results && OnWire(s) > 0
    ensures
      && Possible(s, Mistaking(s, caller))
      && var results := Run(s, Mistaking(s, caller)).results;
         && caller in results && results[caller].Success?
         && results[caller].answer.caller == if s.answers != [] then s.answers[0].caller else s.sent[0].caller
  {
    var cmd := if s.answers != [] then s.answers[0].cmd else s.sent[0].cmd;
    var served := if s.answers != [] then s else Next(s, Serve(cmd));
    CallSends(served, caller, cmd);
    var asked := Run(served, Asks(caller, cmd));
    CallReceives(asked, caller);
    RunsJoin(served, Asks(caller, cmd), [Deliver, Receive]);
    if s.answers == [] {
      assert Run(s, [Serve(cmd)]) == served;
      RunsJoin(s, [Serve(cmd)], Asks(caller, cmd) + [Deliver, Receive]);
    }
  }

  /** Dropping a call with its request on the wire of a usable session: the next call may return the
      dropped call's answer. With `ResponsesArePaired` this makes `CancelIsHarmless` exact. */
  lemma HarmfulCancelMispairs(s: Session, caller: nat)
    requires Sound(s) && Enabled(s, Cancel) && !CancelIsHarmless(s)
    requires caller !in s.results && caller != s.holder.value.caller
    ensures
      var after := Next(s, Cancel);
      && Possible(after, Mistaking(after, caller)) && Cancel !in Mistaking(after, caller)
      && var results := Run(after, Mistaking(after, caller)).results;
         && caller in results && results[caller].Success?
         && results[caller].answer.caller == s.holder.value.caller
  {
    assert WireIsOf(s, s.holder.value.caller);
    LeftoverIsMistaken(Next(s, Cancel), caller);
  }

  /** A call past the check does send on a session that has failed meanwhile. */
  lemma LateSendHappens()
    ensures
      var steps := [Acquire(1, 7), Check, StreamEnds];
      && Possible(FRESH, steps) && !Run(FRESH, steps).healthy
      && Possible(Run(FRESH, steps), [Register, Send])
      && Run(Run(FRESH, steps), [Register, Send]).sent == [Request(1, 7)]
  {
  }
}
