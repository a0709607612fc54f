/** How `reserve` picks the trigger of each requested resource. */
module QuotaRules {
  import opened QuotaTypes
  import QuotaLedger
  import opened ApiMatching
  import opened StableSorting
  import opened ApiIndexes

  datatype RuleType = Local | Global | OtherType

  datatype MatchArgument = MatchArgument(name: string)

  /** What to do when the remote limiter cannot be asked. */
  datatype Failover = FailoverPass | FailoverLocal

  datatype TriggerRule = TriggerRule(
    disable: bool, resource: Option<QuotaResource>, apis: seq<Api>, arguments: seq<MatchArgument>,
    amounts: seq<QuotaLedger.Amount>, concurrencyMax: Option<nat>, failover: Failover)

  datatype RateLimit = RateLimit(priority: int, disable: bool, kind: RuleType, triggers: seq<TriggerRule>)

  datatype TriggerEntry = TriggerEntry(rule: RateLimit, trigger: TriggerRule)

  /** The parts of a request that triggers are matched against. */
  datatype QuotaRequest = QuotaRequest(
    input: ApiMatchInput, quotas: seq<QuotaAmount>, argumentMatches: MatchArgument -> bool, others: OtherKinds)

  predicate QuotaRuleMatches(rule: RateLimit) {
    !rule.disable && rule.kind != OtherType
  }

  predicate TriggerBaseMatches(trigger: TriggerRule) {
    !trigger.disable && trigger.resource.Some?
  }

  predicate TriggerArgumentsMatch(request: QuotaRequest, trigger: TriggerRule) {
    forall i :: 0 <= i < |trigger.arguments| ==> request.argumentMatches(trigger.arguments[i])
  }

  const BY_PRIORITY: RateLimit -> int := (rule: RateLimit) => rule.priority

  /** The index entries of one rule, in the order of its triggers. */
  function EntriesOf(rule: RateLimit, n: nat): seq<Entry<TriggerEntry>>
    requires n <= |rule.triggers|
  {
    if n == 0 || !QuotaRuleMatches(rule) then []
    else
      var trigger := rule.triggers[n - 1];
      EntriesOf(rule, n - 1) + if TriggerBaseMatches(trigger) then [Entry(TriggerEntry(rule, trigger), trigger.apis)]
        else []
  }

  function AllEntries(rules: seq<RateLimit>): seq<Entry<TriggerEntry>> {
    if rules == [] then [] else EntriesOf(rules[0], |rules[0].triggers|) + AllEntries(rules[1..])
  }

  function ArgumentsTest(request: QuotaRequest): TriggerEntry -> bool {
    (entry: TriggerEntry) => TriggerArgumentsMatch(request, entry.trigger)
  }

  function MatchingTriggers(request: QuotaRequest, rules: seq<RateLimit>): seq<TriggerEntry> {
    Filter(IndexScan(AllEntries(SortBy(rules, BY_PRIORITY)), request.input, request.others), ArgumentsTest(request))
  }

  /** `matching_quota_triggers`. */
  method MatchingQuotaTriggers(request: QuotaRequest, rules: seq<RateLimit>) returns (entries: seq<TriggerEntry>)
    ensures entries == MatchingTriggers(request, rules)
  {
    var all := AllEntries(SortBy(rules, BY_PRIORITY));
    var candidates := IndexedCandidates(all, request.input, request.others);
    entries := Filter(candidates, ArgumentsTest(request));
  }

  function ForResource(resource: QuotaResource): TriggerEntry -> bool {
    (entry: TriggerEntry) => entry.trigger.resource == Some(resource)
  }

  /** Exactly the requested resources some trigger matches, each with the first that does. */
  ghost predicate Selects(request: QuotaRequest, rules: seq<RateLimit>, selected: map<QuotaResource, TriggerEntry>) {
    && (forall r ::
          r in selected
          <==> AmountFor(request.quotas, r).Some? && First(MatchingTriggers(request, rules), ForResource(r)).Some?)
    && (forall r :: r in selected ==> First(MatchingTriggers(request, rules), ForResource(r)) == Some(selected[r]))
  }

  /** The trigger selection of `reserve`: the first match of every requested resource. */
  method SelectTriggers(
      request: QuotaRequest, rules: seq<RateLimit>) returns (selected: map<QuotaResource, TriggerEntry>)
    ensures Selects(request, rules, selected)
  {
    var entries := MatchingQuotaTriggers(request, rules);
    selected := map[];
    for i := 0 to |entries|
      invariant forall r ::
        r in selected <==> AmountFor(request.quotas, r).Some? && First(entries[..i], ForResource(r)).Some?
      invariant forall r :: r in selected ==> First(entries[..i], ForResource(r)) == Some(selected[r])
    {
      assert entries[..i + 1] == entries[..i] + [entries[i]];
      forall r
        ensures First(entries[..i + 1], ForResource(r)) ==
          if First(entries[..i], ForResource(r)).Some? then First(entries[..i], ForResource(r))
          else if ForResource(r)(entries[i]) then Some(entries[i]) else None
      {
        FirstOfAppended(entries[..i], entries[i], ForResource(r));
      }
      var resource := entries[i].trigger.resource;
      if resource.Some? && AmountFor(request.quotas, resource.value).Some? && resource.value !in selected {
        selected := selected[resource.value := entries[i]];
      }
    }
    assert entries[..|entries|] == entries;
  }

  /** A trigger that serves a resource: rule and trigger switched on, API hit, arguments matched. */
  predicate Serves(request: QuotaRequest, resource: QuotaResource, rule: RateLimit, trigger: TriggerRule) {
    && !rule.disable && (rule.kind == Local || rule.kind == Global)
    && !trigger.disable && trigger.resource == Some(resource)
    && IndexHit(Entry(TriggerEntry(rule, trigger), trigger.apis), request.input, request.others)
    && forall argument :: argument in trigger.arguments ==> request.argumentMatches(argument)
  }

  /** Trigger `j` is the first of its rule to serve the resource. */
  predicate FirstServing(request: QuotaRequest, resource: QuotaResource, rule: RateLimit, j: int) {
    && 0 <= j < |rule.triggers| && Serves(request, resource, rule, rule.triggers[j])
    && forall k :: 0 <= k < j ==> !Serves(request, resource, rule, rule.triggers[k])
  }

  function ServingTest(request: QuotaRequest, resource: QuotaResource): RateLimit -> bool {
    (rule: RateLimit) => exists j :: 0 <= j < |rule.triggers| && Serves(request, resource, rule, rule.triggers[j])
  }

  /** The first entry that is hit and passes the tests on arguments and resource. */
  function FirstHit(
      request: QuotaRequest, resource: QuotaResource, entries: seq<Entry<TriggerEntry>>): Option<TriggerEntry> {
    First(Filter(IndexScan(entries, request.input, request.others), ArgumentsTest(request)), ForResource(resource))
  }

  lemma FirstHitAppends(
      request: QuotaRequest, resource: QuotaResource, a: seq<Entry<TriggerEntry>>, b: seq<Entry<TriggerEntry>>)
    ensures FirstHit(request, resource, a + b) ==
      if FirstHit(request, resource, a).Some? then FirstHit(request, resource, a) else FirstHit(request, resource, b)
  {
    var x, y := IndexScan(a, request.input, request.others), IndexScan(b, request.input, request.others);
    ScanAppends(a, b, (entry: Entry<TriggerEntry>) => IndexHit(entry, request.input, request.others));
    FilterAppends(x, y, ArgumentsTest(request));
    FirstAppends(Filter(x, ArgumentsTest(request)), Filter(y, ArgumentsTest(request)), ForResource(resource));
  }

  lemma FirstHitOfOne(request: QuotaRequest, resource: QuotaResource, rule: RateLimit, trigger: TriggerRule)
    requires QuotaRuleMatches(rule) && TriggerBaseMatches(trigger)
    ensures var entry := TriggerEntry(rule, trigger);
      FirstHit(request, resource, [Entry(entry, trigger.apis)]) ==
        if Serves(request, resource, rule, trigger) then Some(entry) else None
  {
    var entry := TriggerEntry(rule, trigger);
    var entries := [Entry(entry, trigger.apis)];
    var hit := (e: Entry<TriggerEntry>) => IndexHit(e, request.input, request.others);
    assert entries[..0] == [] && Scan(entries[..0], hit) == [];
    assert Scan(entries, hit) == if hit(entries[0]) then [entry] else [];
    assert IndexScan(entries, request.input, request.others) == if hit(entries[0]) then [entry] else [];
    var one, test := [entry], ArgumentsTest(request);
    assert one[1..] == [] && Filter(one, test) == if test(entry) then one else [];
    assert First(one, ForResource(resource)) == if ForResource(resource)(entry) then Some(entry) else None;
  }

  lemma {:induction false} FirstHitInRule(request: QuotaRequest, resource: QuotaResource, rule: RateLimit, n: nat)
    requires n <= |rule.triggers|
    ensures var found := FirstHit(request, resource, EntriesOf(rule, n));
      if found.None? then forall k :: 0 <= k < n ==> !Serves(request, resource, rule, rule.triggers[k])
      else exists j ::
        j < n && FirstServing(request, resource, rule, j) && found == Some(TriggerEntry(rule, rule.triggers[j]))
  {
    if n > 0 && QuotaRuleMatches(rule) {
      FirstHitInRule(request, resource, rule, n - 1);
      var trigger := rule.triggers[n - 1];
      if TriggerBaseMatches(trigger) {
        FirstHitAppends(request, resource, EntriesOf(rule, n - 1), [Entry(TriggerEntry(rule, trigger), trigger.apis)]);
        FirstHitOfOne(request, resource, rule, trigger);
        if FirstHit(request, resource, EntriesOf(rule, n - 1)).None? && Serves(request, resource, rule, trigger) {
          assert FirstServing(request, resource, rule, n - 1);
        }
      } else {
        assert EntriesOf(rule, n) == EntriesOf(rule, n - 1);
      }
    }
  }

  lemma {:induction false} FirstHitInRules(request: QuotaRequest, resource: QuotaResource, rules: seq<RateLimit>)
    ensures FirstHit(request, resource, AllEntries(rules)) ==
      match First(rules, ServingTest(request, resource))
      case None => None
      case Some(rule) => FirstHit(request, resource, EntriesOf(rule, |rule.triggers|))
  {
    if rules != [] {
      var rule := rules[0];
      FirstHitInRules(request, resource, rules[1..]);
      FirstHitAppends(request, resource, EntriesOf(rule, |rule.triggers|), AllEntries(rules[1..]));
      FirstHitInRule(request, resource, rule, |rule.triggers|);
    }
  }

  /** The trigger picked for a resource is the first serving trigger of the serving rule with the
      least priority value, the earliest on a tie; none is picked exactly when none serves. */
  lemma PickedTriggerLeads(request: QuotaRequest, resource: QuotaResource, rules: seq<RateLimit>)
    ensures var picked := First(MatchingTriggers(request, rules), ForResource(resource));
      if picked.None? then forall i :: 0 <= i < |rules| ==> !ServingTest(request, resource)(rules[i])
      else exists i, j ::
        && Leads(rules, BY_PRIORITY, ServingTest(request, resource), i)
        && FirstServing(request, resource, rules[i], j)
        && picked == Some(TriggerEntry(rules[i], rules[i].triggers[j]))
  {
    var serving := ServingTest(request, resource);
    var sorted := SortBy(rules, BY_PRIORITY);
    FirstHitInRules(request, resource, sorted);
    FirstAfterSort(rules, BY_PRIORITY, serving);
    if First(sorted, serving).Some? {
      var i :| Leads(rules, BY_PRIORITY, serving, i) && First(sorted, serving) == Some(rules[i]);
      FirstHitInRule(request, resource, rules[i], |rules[i].triggers|);
    }
  }

  lemma {:induction false} RequestedIff(quotas: seq<QuotaAmount>, resource: QuotaResource)
    ensures AmountFor(quotas, resource).Some? <==> exists k :: 0 <= k < |quotas| && quotas[k].resource == resource
  {
    if quotas != [] {
      RequestedIff(quotas[1..], resource);
      assert forall k :: 1 <= k < |quotas| ==> quotas[k] == quotas[1..][k - 1];
    }
  }

  /** A trigger is selected for a resource exactly when it is requested and some rule has a trigger that serves it,
      and then it is the first serving trigger of the leading rule. */
  lemma SelectionIff(
      request: QuotaRequest, rules: seq<RateLimit>, selected: map<QuotaResource, TriggerEntry>, r: QuotaResource)
    requires Selects(request, rules, selected)
    ensures r in selected <==>
      && (exists k :: 0 <= k < |request.quotas| && request.quotas[k].resource == r)
      && exists i :: 0 <= i < |rules| && ServingTest(request, r)(rules[i])
    ensures r in selected ==>
      exists i, j ::
        && Leads(rules, BY_PRIORITY, ServingTest(request, r), i) && FirstServing(request, r, rules[i], j)
        && selected[r] == TriggerEntry(rules[i], rules[i].triggers[j]) && selected[r].trigger.resource == Some(r)
  {
    PickedTriggerLeads(request, r, rules);
    RequestedIff(request.quotas, r);
  }
}
