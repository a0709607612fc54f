/** The windows a client keeps at a limiter: one live window per quota, and one initialisation of a
    window per session. */
module QuotaWindows {
  import opened QuotaTypes

  /** What a window counts, whatever the revision of its rule and the endpoint it lives at. */
  datatype Identity = Identity(cluster: string, target: string, labels: string, ruleId: string, trigger: string)
  datatype WindowKey = WindowKey(identity: Identity, revision: string, endpoint: string)

  // ---- the registry

  predicate OnePerQuota(windows: map<WindowKey, nat>) {
    forall a, b :: a in windows && b in windows && a.identity == b.identity ==> a == b
  }

  class WindowRegistry {
    /** The window objects by key; a number stands for an object. */
    var windows: map<WindowKey, nat>
    var next: nat

    constructor ()
      ensures windows == map[] && OnePerQuota(windows)
    {
      windows, next := map[], 0;
    }

    /** Drops the windows of the same quota under another key. */
    method RemoveStaleWindows(current: WindowKey)
      modifies this
      ensures next == old(next)
      ensures windows
           == map key | key in old(windows) && (key.identity != current.identity || key == current) ::
                old(windows)[key]
    {
      var stale := set key | key in windows && key.identity == current.identity && key != current;
      windows := windows - stale;
    }

    /** The window of a key, created when missing. Afterwards it is the only window of its quota; the
        windows of other quotas are untouched. */
    method WindowFor(key: WindowKey) returns (window: nat)
      requires OnePerQuota(windows)
      modifies this
      ensures OnePerQuota(windows) && key in windows && windows[key] == window
      ensures key in old(windows) ==> window == old(windows)[key]
      ensures forall other :: other in windows && other.identity == key.identity ==> other == key
      ensures forall other: WindowKey :: other.identity != key.identity ==>
        (other in windows <==> other in old(windows)) && (other in windows ==> windows[other] == old(windows)[other])
    {
      RemoveStaleWindows(key);
      if key !in windows {
        windows, next := windows[key := next], next + 1;
      }
      window := windows[key];
    }
  }

  // ---- initialisation of one window object, by the sessions of its endpoint

  datatype Phase = Locked | InFlight
  datatype Holder = Holder(session: nat, phase: Phase)

  /** `usable` are the sessions that are healthy with an open channel; `next` is the id of the next one;
      `counts` is how often an initialisation has succeeded on a session. */
  datatype State = State(
    usable: set<nat>, next: nat, initialized: Option<nat>, holder: Option<Holder>, counts: map<nat, nat>)

  const FRESH: State := State({}, 1, None, None, map[])

  function Count(s: State, session: nat): nat {
    if session in s.counts then s.counts[session] else 0
  }

  datatype Step =
    | Connect
    | Break(session: nat)
    | Lock(session: nat)
    | Recheck
    | StartTrip
    | Succeed
    | GiveUp

  predicate Enabled(s: State, step: Step) {
    match step
    case Connect => s.usable == {}
    case Break(_) => true
    case Lock(session) => s.holder.None? && session < s.next
    case Recheck => s.holder.Some? && s.holder.value.phase == Locked && s.initialized == Some(s.holder.value.session)
    case StartTrip => s.holder.Some? && s.holder.value.phase == Locked && s.initialized != Some(s.holder.value.session)
    case Succeed => s.holder.Some? && s.holder.value.phase == InFlight
    case GiveUp => s.holder.Some? && s.holder.value.phase == InFlight
  }

  function Next(s: State, step: Step): State
    requires Enabled(s, step)
  {
    match step
    case Connect => s.(usable := {s.next}, next := s.next + 1)
    case Break(session) => s.(usable := s.usable - {session})
    case Lock(session) => s.(holder := Some(Holder(session, Locked)))
    case Recheck => s.(holder := None)
    case StartTrip =>
      if s.holder.value.session in s.usable then s.(holder := Some(Holder(s.holder.value.session, InFlight)))
      else s.(holder := None)
    case Succeed =>
      var session := s.holder.value.session;
      s.(initialized := Some(session), holder := None, counts := s.counts[session := Count(s, session) + 1])
    case GiveUp => s.(holder := None)
  }

  predicate Possible(s: State, steps: seq<Step>)
    decreases |steps|
  {
    steps == [] || (Enabled(s, steps[0]) && Possible(Next(s, steps[0]), steps[1..]))
  }

  function Run(s: State, steps: seq<Step>): State
    requires Possible(s, steps)
    decreases |steps|
  {
    if steps == [] then s else Run(Next(s, steps[0]), steps[1..])
  }

  /** Only the newest session can be usable; a session that initialised the window is either the one
      recorded or no longer usable; and a trip is under way only for a session that has not succeeded,
      newer than every session that has. */
  ghost predicate Sound(s: State) {
    && (forall session :: session in s.usable ==> session + 1 == s.next)
    && (forall session: nat :: Count(s, session) > 0 ==>
          && Count(s, session) == 1 && session < s.next
          && (s.initialized == Some(session) || session !in s.usable))
    && (s.initialized.Some? ==> Count(s, s.initialized.value) > 0)
    && (s.holder.Some? ==> s.holder.value.session < s.next)
    && (s.holder.Some? && s.holder.value.phase == InFlight ==>
          && Count(s, s.holder.value.session) == 0
          && forall session: nat :: Count(s, session) > 0 ==> session < s.holder.value.session)
  }

  lemma StepKeepsSound(s: State, step: Step)
    requires Sound(s) && Enabled(s, step)
    ensures Sound(Next(s, step))
  {
    var after := Next(s, step);
    forall session: nat
      ensures Count(after, session) == Count(s, session)
        || (step == Succeed && session == s.holder.value.session && Count(after, session) == Count(s, session) + 1)
    {
    }
  }

  lemma {:induction false} RunKeepsSound(s: State, steps: seq<Step>)
    requires Sound(s) && Possible(s, steps)
    ensures Sound(Run(s, steps))
    decreases |steps|
  {
    if steps != [] {
      StepKeepsSound(s, steps[0]);
      RunKeepsSound(Next(s, steps[0]), steps[1..]);
    }
  }

  /** However callers, failures and reconnections interleave, a window is initialised at most once on
      any session; and of a session still usable the window remembers exactly whether it was. */
  lemma InitialisedOncePerSession(steps: seq<Step>, session: nat)
    requires Possible(FRESH, steps)
    ensures
      var s := Run(FRESH, steps);
      && Count(s, session) <= 1
      && (s.initialized == Some(session) ==> Count(s, session) == 1)
      && (session in s.usable ==> (s.initialized == Some(session) <==> Count(s, session) == 1))
  {
    RunKeepsSound(FRESH, steps);
  }
}
