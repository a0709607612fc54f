/** The decision of the traffic security rules for one request, and its declarative form: the
    deciding rule with the least priority, the earliest on a tie. */
module SecurityPolicies {
  import opened QuotaTypes
  import opened ApiMatching
  import opened StableSorting
  import opened ApiIndexes

  datatype AuthMode = LegacyRequestMatch | ManagedIdentity | CustomHeader | UnknownMode
  datatype HeaderRule = HeaderRule(name: string, digest: string)
  datatype Authentication = Authentication(mode: AuthMode, managedIdentity: bool, customHeader: Option<HeaderRule>)

  datatype Caller = Caller(namespace: string, service: string)
  datatype CallerSelector = CallerSelector(anyAuthenticated: bool, callers: seq<Caller>)

  datatype Action = Allow | Deny
  datatype RejectEffect = RejectEffect(code: int, body: string)
  datatype TrafficRule = TrafficRule(name: string)

  datatype Policy = Policy(
    apis: seq<Api>, traffic: Option<TrafficRule>, managedCaller: Option<CallerSelector>,
    action: Action, effect: Option<RejectEffect>)

  datatype SecurityRule = SecurityRule(
    enable: bool, priority: int, authentication: Option<Authentication>, policies: seq<Policy>)

  /** What one request brings: its API, the authenticated caller, and the outcome of the checks made
      elsewhere on headers and traffic labels. */
  datatype Context = Context(
    input: ApiMatchInput, caller: Option<Caller>,
    headerAccepted: HeaderRule -> bool, trafficMatches: TrafficRule -> bool, others: OtherKinds)

  datatype Decision = Decision(allowed: bool, effect: Option<RejectEffect>)

  const ALLOWED: Decision := Decision(true, None)

  predicate RuleAuthenticated(ctx: Context, authentication: Option<Authentication>) {
    authentication.Some? ==>
      match authentication.value.mode
      case LegacyRequestMatch => !authentication.value.managedIdentity && authentication.value.customHeader.None?
      case ManagedIdentity =>
        authentication.value.managedIdentity && authentication.value.customHeader.None? && ctx.caller.Some?
      case CustomHeader =>
        && authentication.value.customHeader.Some? && !authentication.value.managedIdentity
        && ctx.headerAccepted(authentication.value.customHeader.value)
      case UnknownMode => false
  }

  predicate Managed(rule: SecurityRule) {
    rule.authentication.Some? && rule.authentication.value.mode == ManagedIdentity
  }

  predicate ManagedCallerMatches(ctx: Context, selector: Option<CallerSelector>) {
    && ctx.caller.Some? && selector.Some?
    && (selector.value.anyAuthenticated ||
        exists i :: 0 <= i < |selector.value.callers|
          && selector.value.callers[i].namespace != "" && selector.value.callers[i].service != ""
          && selector.value.callers[i] == ctx.caller.value)
  }

  predicate TrafficRuleMatches(ctx: Context, rule: Option<TrafficRule>) {
    rule.Some? ==> ctx.trafficMatches(rule.value)
  }

  function SecurityDecision(action: Action, effect: Option<RejectEffect>): Decision {
    if action == Allow then ALLOWED else Decision(false, effect)
  }

  function PolicyEntries(policies: seq<Policy>): seq<Entry<Policy>> {
    seq(|policies|, i requires 0 <= i < |policies| => Entry(policies[i], policies[i].apis))
  }

  /** A policy that applies: its API is hit, its caller selector and traffic rule accept. */
  predicate Applies(ctx: Context, rule: SecurityRule, policy: Policy) {
    && (Managed(rule) ==> ManagedCallerMatches(ctx, policy.managedCaller))
    && TrafficRuleMatches(ctx, policy.traffic)
  }

  /** The API of a policy as the index reads it. */
  predicate Hit(ctx: Context, policy: Policy) {
    IndexHit(Entry(policy, policy.apis), ctx.input, ctx.others)
  }

  function FirstEffect(rule: SecurityRule): Option<RejectEffect> {
    if rule.policies == [] then None else rule.policies[0].effect
  }

  function HitTest(ctx: Context): Policy -> bool {
    (policy: Policy) => Hit(ctx, policy)
  }

  function AppliesTest(ctx: Context, rule: SecurityRule): Policy -> bool {
    (policy: Policy) => Applies(ctx, rule, policy)
  }

  /** What one rule says, None when the next rule is asked. */
  function RuleVerdict(ctx: Context, rule: SecurityRule): Option<Decision> {
    var candidates := IndexScan(PolicyEntries(rule.policies), ctx.input, ctx.others);
    if candidates == [] then None
    else if !RuleAuthenticated(ctx, rule.authentication) then Some(Decision(false, candidates[0].effect))
    else
      match First(candidates, AppliesTest(ctx, rule))
      case Some(policy) => Some(SecurityDecision(policy.action, policy.effect))
      case None =>
        if Managed(rule) then Some(Decision(false, FirstEffect(rule))) else None
  }

  function Enabled(rules: seq<SecurityRule>): seq<SecurityRule> {
    Filter(rules, ENABLED)
  }

  const BY_PRIORITY: SecurityRule -> int := (rule: SecurityRule) => rule.priority

  function FirstVerdict(ctx: Context, rules: seq<SecurityRule>): Decision {
    if rules == [] then ALLOWED
    else
      match RuleVerdict(ctx, rules[0])
      case Some(decision) => decision
      case None => FirstVerdict(ctx, rules[1..])
  }

  function Evaluated(ctx: Context, rules: seq<SecurityRule>): Decision {
    FirstVerdict(ctx, SortBy(Enabled(rules), BY_PRIORITY))
  }

  /** `evaluate_security`: enabled rules in stable priority order, each with its own index. The decision is that
      of the deciding rule of least priority value, the earliest on a tie; without one the request is allowed. */
  method EvaluateSecurity(ctx: Context, rules: seq<SecurityRule>) returns (decision: Decision)
    ensures decision == Evaluated(ctx, rules)
    ensures (forall i :: 0 <= i < |rules| ==> !Deciding(ctx, rules[i])) ==> decision == Decision(true, None)
    ensures (exists i :: 0 <= i < |rules| && Deciding(ctx, rules[i])) ==>
      exists i :: Leads(rules, BY_PRIORITY, DecidingTest(ctx), i) && Decides(ctx, rules[i], decision)
  {
    DecisionIsTheLeadingRules(ctx, rules);
    var sorted := SortBy(Enabled(rules), BY_PRIORITY);
    for i := 0 to |sorted|
      invariant FirstVerdict(ctx, sorted) == FirstVerdict(ctx, sorted[i..])
    {
      var verdict := EvaluateRule(ctx, sorted[i]);
      if verdict.Some? {
        return verdict.value;
      }
      assert sorted[i..][1..] == sorted[i + 1..];
    }
    decision := ALLOWED;
  }

  method EvaluateRule(ctx: Context, rule: SecurityRule) returns (verdict: Option<Decision>)
    ensures verdict == RuleVerdict(ctx, rule)
  {
    var entries := PolicyEntries(rule.policies);
    var candidates := IndexedCandidates(entries, ctx.input, ctx.others);
    if candidates == [] {
      return None;
    }
    if !RuleAuthenticated(ctx, rule.authentication) {
      return Some(Decision(false, candidates[0].effect));
    }
    for i := 0 to |candidates|
      invariant First(candidates, AppliesTest(ctx, rule))
             == First(candidates[i..], AppliesTest(ctx, rule))
    {
      var policy := candidates[i];
      if (!Managed(rule) || ManagedCallerMatches(ctx, policy.managedCaller))
        && TrafficRuleMatches(ctx, policy.traffic) {
        return Some(SecurityDecision(policy.action, policy.effect));
      }
      assert candidates[i..][1..] == candidates[i + 1..];
    }
    if Managed(rule) {
      return Some(Decision(false, FirstEffect(rule)));
    }
    verdict := None;
  }

  /** The first element that passes, by its place. */
  predicate FirstAt<T>(s: seq<T>, test: T -> bool, i: int) {
    0 <= i < |s| && test(s[i]) && forall j :: 0 <= j < i ==> !test(s[j])
  }

  /** Turned away at the gate, before any policy is asked, mode by mode. */
  predicate TurnedAway(ctx: Context, rule: SecurityRule) {
    match rule.authentication
    case None => false
    case Some(Authentication(LegacyRequestMatch, managedIdentity, customHeader)) =>
      managedIdentity || customHeader.Some?
    case Some(Authentication(ManagedIdentity, managedIdentity, customHeader)) =>
      !managedIdentity || customHeader.Some? || ctx.caller.None?
    case Some(Authentication(CustomHeader, managedIdentity, customHeader)) =>
      managedIdentity || customHeader.None? || !ctx.headerAccepted(customHeader.value)
    case Some(Authentication(UnknownMode, _, _)) => true
  }

  /** The traffic rule of the policy, if it has one, accepts the request. */
  predicate Carries(ctx: Context, policy: Policy) {
    policy.traffic == None || ctx.trafficMatches(policy.traffic.value)
  }

  /** The policy names the caller, or takes any that is authenticated. A caller without namespace or service
      is never named. */
  predicate Names(policy: Policy, caller: Option<Caller>) {
    && caller.Some? && policy.managedCaller.Some?
    && (policy.managedCaller.value.anyAuthenticated
        || (caller.value in policy.managedCaller.value.callers
            && caller.value.namespace != "" && caller.value.service != ""))
  }

  predicate InManagedMode(rule: SecurityRule) {
    match rule.authentication
    case None => false
    case Some(Authentication(mode, _, _)) => mode.ManagedIdentity?
  }

  /** A hit policy that decides for a caller who was let in. */
  predicate Governs(ctx: Context, rule: SecurityRule, policy: Policy) {
    && IndexHit(Entry(policy, policy.apis), ctx.input, ctx.others)
    && Carries(ctx, policy) && (InManagedMode(rule) ==> Names(policy, ctx.caller))
  }

  /** A rule decides when it is enabled, one of its policies is hit and it turns the caller away, manages
      identities, or has a policy that governs. */
  predicate Deciding(ctx: Context, rule: SecurityRule) {
    && rule.enable
    && exists j :: 0 <= j < |rule.policies| && Hit(ctx, rule.policies[j])
         && (TurnedAway(ctx, rule) || InManagedMode(rule) || Governs(ctx, rule, rule.policies[j]))
  }

  function GovernsTest(ctx: Context, rule: SecurityRule): Policy -> bool {
    (policy: Policy) => Governs(ctx, rule, policy)
  }

  /** The decision a deciding rule stands for: who is turned away is denied with the effect of the first hit
      policy, who is let in gets what the first governing policy says, and a managed caller no policy names is
      denied with the effect of the first policy of all. */
  ghost predicate Decides(ctx: Context, rule: SecurityRule, decision: Decision) {
    if TurnedAway(ctx, rule) then DeniedByFirstHit(ctx, rule, decision)
    else if exists j :: 0 <= j < |rule.policies| && Governs(ctx, rule, rule.policies[j])
    then DecidedByFirst(rule, GovernsTest(ctx, rule), decision)
    else InManagedMode(rule) && rule.policies != [] && decision == Decision(false, rule.policies[0].effect)
  }

  ghost predicate DeniedByFirstHit(ctx: Context, rule: SecurityRule, decision: Decision) {
    exists j :: FirstAt(rule.policies, HitTest(ctx), j) && decision == Decision(false, rule.policies[j].effect)
  }

  ghost predicate DecidedByFirst(rule: SecurityRule, test: Policy -> bool, decision: Decision) {
    exists j :: FirstAt(rule.policies, test, j)
      && decision == match rule.policies[j].action
                     case Allow => Decision(true, None)
                     case Deny => Decision(false, rule.policies[j].effect)
  }

  lemma {:induction false} FirstOfScan(ctx: Context, policies: seq<Policy>, test: Policy -> bool)
    ensures First(IndexScan(PolicyEntries(policies), ctx.input, ctx.others), test).None?
        <==> forall j :: 0 <= j < |policies| && Hit(ctx, policies[j]) ==> !test(policies[j])
    ensures First(IndexScan(PolicyEntries(policies), ctx.input, ctx.others), test).Some? ==>
      exists j :: FirstAt(policies, Both(HitTest(ctx), test), j)
        && First(IndexScan(PolicyEntries(policies), ctx.input, ctx.others), test) == Some(policies[j])
  {
    if policies != [] {
      var n := |policies| - 1;
      FirstOfScan(ctx, policies[..n], test);
      assert PolicyEntries(policies)[..n] == PolicyEntries(policies[..n]);
      var before := IndexScan(PolicyEntries(policies[..n]), ctx.input, ctx.others);
      FirstOfAppended(before, policies[n], test);
      var found := First(before, test);
      var both := Both(HitTest(ctx), test);
      if found.Some? {
        var j :| FirstAt(policies[..n], both, j) && found == Some(policies[..n][j]);
        assert FirstAt(policies, both, j);
      } else if both(policies[n]) {
        assert FirstAt(policies, both, n);
      }
    }
  }

  lemma GateIff(ctx: Context, rule: SecurityRule)
    ensures RuleAuthenticated(ctx, rule.authentication) <==> !TurnedAway(ctx, rule)
    ensures Managed(rule) <==> InManagedMode(rule)
  {
  }

  lemma GovernsIff(ctx: Context, rule: SecurityRule, policy: Policy)
    ensures Hit(ctx, policy) && Applies(ctx, rule, policy) <==> Governs(ctx, rule, policy)
  {
    GateIff(ctx, rule);
    if ctx.caller.Some? && policy.managedCaller.Some? {
      var callers := policy.managedCaller.value.callers;
      if ctx.caller.value in callers {
        var i :| 0 <= i < |callers| && callers[i] == ctx.caller.value;
      }
    }
  }

  /** A rule with a hit policy that turns the caller away. */
  lemma TurningAwaySpeaks(ctx: Context, rule: SecurityRule)
    requires TurnedAway(ctx, rule) && RuleVerdict(ctx, rule).Some?
    ensures DeniedByFirstHit(ctx, rule, RuleVerdict(ctx, rule).value)
  {
    var candidates := IndexScan(PolicyEntries(rule.policies), ctx.input, ctx.others);
    var any := (policy: Policy) => true;
    GateIff(ctx, rule);
    FirstOfScan(ctx, rule.policies, any);
    assert First(candidates, any) == Some(candidates[0]);
    var j :| FirstAt(rule.policies, Both(HitTest(ctx), any), j) && First(candidates, any) == Some(rule.policies[j]);
    assert FirstAt(rule.policies, HitTest(ctx), j);
  }

  /** A rule that lets the caller in and has a governing policy. */
  lemma GoverningSpeaks(ctx: Context, rule: SecurityRule)
    requires !TurnedAway(ctx, rule) && exists j :: 0 <= j < |rule.policies| && Governs(ctx, rule, rule.policies[j])
    ensures RuleVerdict(ctx, rule).Some?
    ensures DecidedByFirst(rule, GovernsTest(ctx, rule), RuleVerdict(ctx, rule).value)
  {
    var candidates, test := IndexScan(PolicyEntries(rule.policies), ctx.input, ctx.others), AppliesTest(ctx, rule);
    GateIff(ctx, rule);
    FirstOfScan(ctx, rule.policies, test);
    forall k | 0 <= k < |rule.policies|
      ensures Hit(ctx, rule.policies[k]) && test(rule.policies[k]) <==> Governs(ctx, rule, rule.policies[k])
    {
      GovernsIff(ctx, rule, rule.policies[k]);
    }
    var j :| FirstAt(rule.policies, Both(HitTest(ctx), test), j) && First(candidates, test) == Some(rule.policies[j]);
    assert FirstAt(rule.policies, GovernsTest(ctx, rule), j);
  }

  /** A rule that lets the caller in and has no governing policy. */
  lemma NothingGoverns(ctx: Context, rule: SecurityRule)
    requires !TurnedAway(ctx, rule) && forall j :: 0 <= j < |rule.policies| ==> !Governs(ctx, rule, rule.policies[j])
    ensures RuleVerdict(ctx, rule)
         == if InManagedMode(rule) && exists j :: 0 <= j < |rule.policies| && Hit(ctx, rule.policies[j])
            then Some(Decision(false, rule.policies[0].effect)) else None
  {
    var candidates, any := IndexScan(PolicyEntries(rule.policies), ctx.input, ctx.others), (policy: Policy) => true;
    GateIff(ctx, rule);
    FirstOfScan(ctx, rule.policies, any);
    FirstOfScan(ctx, rule.policies, AppliesTest(ctx, rule));
    forall k | 0 <= k < |rule.policies| && Hit(ctx, rule.policies[k])
      ensures !Applies(ctx, rule, rule.policies[k])
    {
      GovernsIff(ctx, rule, rule.policies[k]);
    }
    assert candidates == [] <==> First(candidates, any).None?;
  }

  lemma HitIffAsked(ctx: Context, rule: SecurityRule)
    ensures IndexScan(PolicyEntries(rule.policies), ctx.input, ctx.others) != []
       <==> exists j :: 0 <= j < |rule.policies| && Hit(ctx, rule.policies[j])
  {
    var any := (policy: Policy) => true;
    FirstOfScan(ctx, rule.policies, any);
    FirstIsMember(IndexScan(PolicyEntries(rule.policies), ctx.input, ctx.others), any);
  }

  /** One rule: it speaks exactly when it decides, and then says what it stands for. */
  lemma VerdictIff(ctx: Context, rule: SecurityRule)
    requires rule.enable
    ensures RuleVerdict(ctx, rule).Some? <==> Deciding(ctx, rule)
    ensures RuleVerdict(ctx, rule).Some? ==> Decides(ctx, rule, RuleVerdict(ctx, rule).value)
  {
    HitIffAsked(ctx, rule);
    GateIff(ctx, rule);
    if TurnedAway(ctx, rule) {
      if RuleVerdict(ctx, rule).Some? {
        TurningAwaySpeaks(ctx, rule);
      }
    } else if exists j :: 0 <= j < |rule.policies| && Governs(ctx, rule, rule.policies[j]) {
      GoverningSpeaks(ctx, rule);
    } else {
      NothingGoverns(ctx, rule);
    }
  }

  function SpeaksTest(ctx: Context): SecurityRule -> bool {
    (rule: SecurityRule) => RuleVerdict(ctx, rule).Some?
  }

  function DecidingTest(ctx: Context): SecurityRule -> bool {
    (rule: SecurityRule) => Deciding(ctx, rule)
  }

  const ENABLED: SecurityRule -> bool := (rule: SecurityRule) => rule.enable

  lemma {:induction false} FirstVerdictIsFirst(ctx: Context, rules: seq<SecurityRule>)
    ensures First(rules, SpeaksTest(ctx)).None? ==> FirstVerdict(ctx, rules) == ALLOWED
    ensures First(rules, SpeaksTest(ctx)).Some? ==>
      RuleVerdict(ctx, First(rules, SpeaksTest(ctx)).value) == Some(FirstVerdict(ctx, rules))
  {
    if rules != [] {
      FirstVerdictIsFirst(ctx, rules[1..]);
    }
  }

  lemma DecidingIff(ctx: Context, rule: SecurityRule)
    ensures Both(ENABLED, SpeaksTest(ctx))(rule) <==> Deciding(ctx, rule)
    ensures Deciding(ctx, rule) ==>
      RuleVerdict(ctx, rule).Some? && Decides(ctx, rule, RuleVerdict(ctx, rule).value)
  {
    if rule.enable {
      VerdictIff(ctx, rule);
    }
  }

  /** The whole evaluation: no deciding rule means allow; otherwise the deciding rule of least
      priority value, the earliest on a tie, is the one whose decision is returned. */
  lemma DecisionIsTheLeadingRules(ctx: Context, rules: seq<SecurityRule>)
    ensures
      var decision := Evaluated(ctx, rules);
      if forall i :: 0 <= i < |rules| ==> !Deciding(ctx, rules[i]) then decision == ALLOWED
      else exists i :: Leads(rules, BY_PRIORITY, DecidingTest(ctx), i) && Decides(ctx, rules[i], decision)
  {
    var both := Both(ENABLED, SpeaksTest(ctx));
    FirstVerdictIsFirst(ctx, SortBy(Enabled(rules), BY_PRIORITY));
    FirstOfFiltered(rules, BY_PRIORITY, ENABLED, SpeaksTest(ctx));
    FirstAfterSort(rules, BY_PRIORITY, both);
    forall i | 0 <= i < |rules|
      ensures both(rules[i]) == Deciding(ctx, rules[i])
    {
      DecidingIff(ctx, rules[i]);
    }
    if First(SortBy(rules, BY_PRIORITY), both).Some? {
      var i :| Leads(rules, BY_PRIORITY, both, i) && First(SortBy(rules, BY_PRIORITY), both) == Some(rules[i]);
      DecidingIff(ctx, rules[i]);
      assert Leads(rules, BY_PRIORITY, DecidingTest(ctx), i);
    }
  }

  // ---------- mode by mode ----------

  /** An enabled rule with a policy hit by the request. */
  function HitRuleTest(ctx: Context): SecurityRule -> bool {
    (rule: SecurityRule) => rule.enable && exists j :: 0 <= j < |rule.policies| && Hit(ctx, rule.policies[j])
  }

  /** The hit policies whose traffic rule accepts the request. */
  function CarryingTest(ctx: Context): Policy -> bool {
    (policy: Policy) =>
      && IndexHit(Entry(policy, policy.apis), ctx.input, ctx.others)
      && (policy.traffic == None || ctx.trafficMatches(policy.traffic.value))
  }

  /** Those among them that take this caller: any that is authenticated, or named with namespace and service. */
  function TakingTest(ctx: Context): Policy -> bool {
    (policy: Policy) =>
      && IndexHit(Entry(policy, policy.apis), ctx.input, ctx.others)
      && (policy.traffic == None || ctx.trafficMatches(policy.traffic.value))
      && policy.managedCaller.Some? && ctx.caller.Some?
      && (policy.managedCaller.value.anyAuthenticated
          || (ctx.caller.value in policy.managedCaller.value.callers
              && ctx.caller.value.namespace != "" && ctx.caller.value.service != ""))
  }

  predicate AnyPasses(policies: seq<Policy>, test: Policy -> bool) {
    exists j :: 0 <= j < |policies| && test(policies[j])
  }

  lemma DecidingLeads(ctx: Context, rules: seq<SecurityRule>, i: int)
    requires Leads(rules, BY_PRIORITY, HitRuleTest(ctx), i) && Deciding(ctx, rules[i])
    ensures Decides(ctx, rules[i], Evaluated(ctx, rules))
  {
    DecisionIsTheLeadingRules(ctx, rules);
    var k :| Leads(rules, BY_PRIORITY, DecidingTest(ctx), k) && Decides(ctx, rules[k], Evaluated(ctx, rules));
    assert HitRuleTest(ctx)(rules[k]) && DecidingTest(ctx)(rules[i]);
  }

  lemma FirstBySameTest(rule: SecurityRule, test: Policy -> bool, same: Policy -> bool, decision: Decision)
    requires DecidedByFirst(rule, test, decision) && forall policy :: test(policy) == same(policy)
    ensures DecidedByFirst(rule, same, decision)
  {
    var j :| FirstAt(rule.policies, test, j)
      && decision == match rule.policies[j].action
                     case Allow => Decision(true, None)
                     case Deny => Decision(false, rule.policies[j].effect);
    assert FirstAt(rule.policies, same, j);
  }

  /** The leading hit rule has no authentication section, or a legacy one: there both settings must be absent,
      and the policies decide by traffic alone. */
  lemma LegacyRuleDecides(ctx: Context, rules: seq<SecurityRule>, i: int)
    requires Leads(rules, BY_PRIORITY, HitRuleTest(ctx), i)
    requires rules[i].authentication.Some? ==> rules[i].authentication.value.mode == LegacyRequestMatch
    ensures
      var rule, decision := rules[i], Evaluated(ctx, rules);
      if rule.authentication.Some?
         && (rule.authentication.value.managedIdentity || rule.authentication.value.customHeader.Some?)
      then DeniedByFirstHit(ctx, rule, decision)
      else AnyPasses(rule.policies, CarryingTest(ctx)) ==> DecidedByFirst(rule, CarryingTest(ctx), decision)
  {
    var rule := rules[i];
    assert forall policy :: GovernsTest(ctx, rule)(policy) == CarryingTest(ctx)(policy);
    if TurnedAway(ctx, rule) || AnyPasses(rule.policies, CarryingTest(ctx)) {
      DecidingLeads(ctx, rules, i);
      if !TurnedAway(ctx, rule) {
        FirstBySameTest(rule, GovernsTest(ctx, rule), CarryingTest(ctx), Evaluated(ctx, rules));
      }
    }
  }

  /** The leading hit rule demands a header: it turns the request away with the effect of its first hit policy
      exactly when no header rule is set, a managed identity is set as well or the header is not accepted;
      otherwise its policies decide by traffic alone. */
  lemma HeaderRuleDecides(ctx: Context, rules: seq<SecurityRule>, i: int)
    requires Leads(rules, BY_PRIORITY, HitRuleTest(ctx), i)
    requires rules[i].authentication.Some? && rules[i].authentication.value.mode == CustomHeader
    ensures
      var rule, decision := rules[i], Evaluated(ctx, rules);
      var Authentication(_, managedIdentity, customHeader) := rule.authentication.value;
      if managedIdentity || customHeader.None? || !ctx.headerAccepted(customHeader.value)
      then DeniedByFirstHit(ctx, rule, decision)
      else AnyPasses(rule.policies, CarryingTest(ctx)) ==> DecidedByFirst(rule, CarryingTest(ctx), decision)
  {
    var rule := rules[i];
    assert forall policy :: GovernsTest(ctx, rule)(policy) == CarryingTest(ctx)(policy);
    if TurnedAway(ctx, rule) || AnyPasses(rule.policies, CarryingTest(ctx)) {
      DecidingLeads(ctx, rules, i);
      if !TurnedAway(ctx, rule) {
        FirstBySameTest(rule, GovernsTest(ctx, rule), CarryingTest(ctx), Evaluated(ctx, rules));
      }
    }
  }

  /** The leading hit rule manages identities: it always decides. Without an authenticated caller, or with a
      malformed setting, the request is denied with the effect of the first hit policy; otherwise the first hit
      policy that takes the caller decides, and a caller none takes is denied with the first policy's effect. */
  lemma ManagedRuleDecides(ctx: Context, rules: seq<SecurityRule>, i: int)
    requires Leads(rules, BY_PRIORITY, HitRuleTest(ctx), i)
    requires rules[i].authentication.Some? && rules[i].authentication.value.mode == ManagedIdentity
    ensures
      var rule, decision := rules[i], Evaluated(ctx, rules);
      var Authentication(_, managedIdentity, customHeader) := rule.authentication.value;
      if !managedIdentity || customHeader.Some? || ctx.caller.None? then DeniedByFirstHit(ctx, rule, decision)
      else if AnyPasses(rule.policies, TakingTest(ctx)) then DecidedByFirst(rule, TakingTest(ctx), decision)
      else decision == Decision(false, rule.policies[0].effect)
    ensures Evaluated(ctx, rules).allowed ==>
      exists policy :: policy in rules[i].policies && policy.action == Allow && TakingTest(ctx)(policy)
  {
    var rule := rules[i];
    assert forall policy :: GovernsTest(ctx, rule)(policy) == TakingTest(ctx)(policy);
    DecidingLeads(ctx, rules, i);
    if !TurnedAway(ctx, rule) && AnyPasses(rule.policies, TakingTest(ctx)) {
      FirstBySameTest(rule, GovernsTest(ctx, rule), TakingTest(ctx), Evaluated(ctx, rules));
    }
  }

  /** The leading hit rule has a mode this client does not know: denied. */
  lemma UnknownModeDenies(ctx: Context, rules: seq<SecurityRule>, i: int)
    requires Leads(rules, BY_PRIORITY, HitRuleTest(ctx), i)
    requires rules[i].authentication.Some? && rules[i].authentication.value.mode == UnknownMode
    ensures DeniedByFirstHit(ctx, rules[i], Evaluated(ctx, rules))
  {
    DecidingLeads(ctx, rules, i);
  }

  /** Where every star path of a policy is backed, a policy is hit exactly when the request matches one
      of its APIs or it lists none. */
  lemma BackedPoliciesAreReadPlainly(ctx: Context, policy: Policy)
    requires StarsAreBacked(Entry(policy, policy.apis))
    ensures Hit(ctx, policy) <==>
      policy.apis == [] || exists i :: 0 <= i < |policy.apis| && ApiMatches(ctx.input, policy.apis[i], ctx.others)
  {
    BackedIsNeverHidden(Entry(policy, policy.apis), ctx.input, ctx.others);
    HiddenIff(Entry(policy, policy.apis), ctx.input, ctx.others);
  }

  /** A rule that denies GET on the exact text path "*" lets GET /orders through, although that API
      matches the request. */
  lemma StarDenyIsSkipped(headerAccepted: HeaderRule -> bool, trafficMatches: TrafficRule -> bool)
    ensures
      var api := Api("GET", Some(MatchString(Exact, "*", Text)));
      var rule := SecurityRule(true, 0, None, [Policy([api], None, None, Deny, None)]);
      var input := ApiMatchInput(Some("GET"), Some("/orders"));
      var ctx := Context(input, None, headerAccepted, trafficMatches, NOTHING_ELSE);
      ApiMatches(input, api, NOTHING_ELSE) && Evaluated(ctx, [rule]) == ALLOWED
  {
    var api := Api("GET", Some(MatchString(Exact, "*", Text)));
    var policy := Policy([api], None, None, Deny, None);
    var rule := SecurityRule(true, 0, None, [policy]);
    var input := ApiMatchInput(Some("GET"), Some("/orders"));
    var ctx := Context(input, None, headerAccepted, trafficMatches, NOTHING_ELSE);
    assert policy.apis == [api] && !Hit(ctx, policy);
    DecisionIsTheLeadingRules(ctx, [rule]);
    assert rule.policies == [policy] && !Deciding(ctx, rule);
  }
}
