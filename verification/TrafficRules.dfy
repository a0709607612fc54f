/** Mirror and mock rules: what the indexed evaluation returns is what a nested scan of the rules in
    priority order would. The two share their shape; a mock stops at its first offer. */
module TrafficRules {
  import opened QuotaTypes
  import opened ApiMatching
  import opened StableSorting
  import opened ApiIndexes

  datatype TrafficMatch = TrafficMatch(name: string)
  datatype SourceService = SourceService(namespace: string, service: string)

  /** `payload` is the destination of a mirror or the response of a mock. */
  datatype SubRule<D> = SubRule(disable: bool, percent: nat, apis: seq<Api>, traffic: Option<TrafficMatch>,
    payload: Option<D>)
  datatype Rule<D> = Rule(enable: bool, priority: int, caller: Option<SourceService>, rules: seq<SubRule<D>>)

  /** One request: its API, and the outcome of the checks on caller, labels and sampling; `hash` is the
      sampling hash for a payload. */
  datatype Context<!D> = Context(
    input: ApiMatchInput, callerMatches: Option<SourceService> -> bool, trafficMatches: TrafficMatch -> bool,
    hash: D -> nat, others: OtherKinds)

  predicate SampleHit(percent: nat, hash: nat) {
    percent != 0 && (percent >= 100 || hash % 100 < percent)
  }

  predicate Admitted<D>(ctx: Context<D>, sub: SubRule<D>) {
    && (sub.traffic.Some? ==> ctx.trafficMatches(sub.traffic.value))
    && sub.payload.Some? && SampleHit(sub.percent, ctx.hash(sub.payload.value))
  }

  function Payloads<D>(ctx: Context<D>, candidates: seq<SubRule<D>>): seq<D> {
    if candidates == [] then []
    else
      var init, last := candidates[..|candidates| - 1], candidates[|candidates| - 1];
      Payloads(ctx, init) + if Admitted(ctx, last) then [last.payload.value] else []
  }

  predicate Listed<D>(sub: SubRule<D>) {
    !sub.disable && sub.percent != 0
  }

  function EntriesOf<D>(ctx: Context<D>, rule: Rule<D>, n: nat): seq<Entry<SubRule<D>>>
    requires n <= |rule.rules|
  {
    if n == 0 || !ctx.callerMatches(rule.caller) then []
    else
      var sub := rule.rules[n - 1];
      EntriesOf(ctx, rule, n - 1) + if Listed(sub) then [Entry(sub, sub.apis)] else []
  }

  function AllEntries<D>(ctx: Context<D>, rules: seq<Rule<D>>): seq<Entry<SubRule<D>>> {
    if rules == [] then []
    else
      var init, last := rules[..|rules| - 1], rules[|rules| - 1];
      AllEntries(ctx, init) + EntriesOf(ctx, last, |last.rules|)
  }

  function InPriorityOrder<D>(rules: seq<Rule<D>>): seq<Rule<D>> {
    SortBy(Filter(rules, (rule: Rule<D>) => rule.enable), (rule: Rule<D>) => rule.priority)
  }

  // ---- the nested scan

  /** A sub-rule that makes an offer, with every condition spelt out. */
  predicate Offers<D>(ctx: Context<D>, rule: Rule<D>, sub: SubRule<D>) {
    && ctx.callerMatches(rule.caller) && !sub.disable
    && IndexHit(Entry(sub, sub.apis), ctx.input, ctx.others)
    && (sub.traffic == None || ctx.trafficMatches(sub.traffic.value))
    && sub.payload.Some? && 0 < sub.percent && (100 <= sub.percent || ctx.hash(sub.payload.value) % 100 < sub.percent)
  }

  function OffersOf<D>(ctx: Context<D>, rule: Rule<D>, n: nat): seq<D>
    requires n <= |rule.rules|
  {
    if n == 0 then []
    else
      var sub := rule.rules[n - 1];
      OffersOf(ctx, rule, n - 1) + if Offers(ctx, rule, sub) then [sub.payload.value] else []
  }

  function AllOffers<D>(ctx: Context<D>, rules: seq<Rule<D>>): seq<D> {
    if rules == [] then []
    else
      var init, last := rules[..|rules| - 1], rules[|rules| - 1];
      AllOffers(ctx, init) + OffersOf(ctx, last, |last.rules|)
  }

  /** What the indexed evaluation collects from some entries. */
  function Collected<D>(ctx: Context<D>, entries: seq<Entry<SubRule<D>>>): seq<D> {
    Payloads(ctx, IndexScan(entries, ctx.input, ctx.others))
  }

  lemma {:induction false} PayloadsJoin<D>(ctx: Context<D>, a: seq<SubRule<D>>, b: seq<SubRule<D>>)
    ensures Payloads(ctx, a + b) == Payloads(ctx, a) + Payloads(ctx, b)
  {
    if b == [] {
      assert a + b == a;
    } else {
      PayloadsJoin(ctx, a, b[..|b| - 1]);
      assert (a + b)[..|a + b| - 1] == a + b[..|b| - 1];
    }
  }

  lemma CollectedJoin<D>(ctx: Context<D>, a: seq<Entry<SubRule<D>>>, b: seq<Entry<SubRule<D>>>)
    ensures Collected(ctx, a + b) == Collected(ctx, a) + Collected(ctx, b)
  {
    ScanAppends(a, b, (entry: Entry<SubRule<D>>) => IndexHit(entry, ctx.input, ctx.others));
    PayloadsJoin(ctx, IndexScan(a, ctx.input, ctx.others), IndexScan(b, ctx.input, ctx.others));
  }

  lemma CollectedOne<D>(ctx: Context<D>, sub: SubRule<D>)
    ensures Collected(ctx, [Entry(sub, sub.apis)]) ==
      if IndexHit(Entry(sub, sub.apis), ctx.input, ctx.others) && Admitted(ctx, sub) then [sub.payload.value] else []
  {
    var entries := [Entry(sub, sub.apis)];
    var hit := (entry: Entry<SubRule<D>>) => IndexHit(entry, ctx.input, ctx.others);
    assert entries[..0] == [] && Scan(entries[..0], hit) == [];
    var scan := if hit(entries[0]) then [sub] else [];
    assert IndexScan(entries, ctx.input, ctx.others) == scan;
    assert [sub][..0] == [] && Payloads(ctx, [sub][..0]) == [];
  }

  lemma {:induction false} RuleCollectsItsOffers<D>(ctx: Context<D>, rule: Rule<D>, n: nat)
    requires n <= |rule.rules|
    ensures Collected(ctx, EntriesOf(ctx, rule, n)) == OffersOf(ctx, rule, n)
  {
    if n > 0 {
      RuleCollectsItsOffers(ctx, rule, n - 1);
      var sub := rule.rules[n - 1];
      if ctx.callerMatches(rule.caller) && Listed(sub) {
        CollectedJoin(ctx, EntriesOf(ctx, rule, n - 1), [Entry(sub, sub.apis)]);
        CollectedOne(ctx, sub);
      } else {
        assert EntriesOf(ctx, rule, n) == EntriesOf(ctx, rule, n - 1);
      }
    }
  }

  /** Sorting and indexing lose no offer, add none and keep their order. */
  lemma {:induction false} CollectedAreTheOffers<D>(ctx: Context<D>, rules: seq<Rule<D>>)
    ensures Collected(ctx, AllEntries(ctx, rules)) == AllOffers(ctx, rules)
  {
    if rules != [] {
      var init, last := rules[..|rules| - 1], rules[|rules| - 1];
      CollectedAreTheOffers(ctx, init);
      RuleCollectsItsOffers(ctx, last, |last.rules|);
      CollectedJoin(ctx, AllEntries(ctx, init), EntriesOf(ctx, last, |last.rules|));
    }
  }

  method EvaluateMirrors<D>(ctx: Context<D>, rules: seq<Rule<D>>) returns (destinations: seq<D>)
    ensures destinations == AllOffers(ctx, InPriorityOrder(rules))
  {
    var entries := AllEntries(ctx, InPriorityOrder(rules));
    var candidates := IndexedCandidates(entries, ctx.input, ctx.others);
    destinations := [];
    for i := 0 to |candidates|
      invariant destinations == Payloads(ctx, candidates[..i])
    {
      assert candidates[..i + 1][..i] == candidates[..i];
      if Admitted(ctx, candidates[i]) {
        destinations := destinations + [candidates[i].payload.value];
      }
    }
    assert candidates[..|candidates|] == candidates;
    CollectedAreTheOffers(ctx, InPriorityOrder(rules));
  }

  lemma FirstPayload<D>(ctx: Context<D>, candidates: seq<SubRule<D>>, i: nat)
    requires i < |candidates| && Payloads(ctx, candidates[..i]) == [] && Admitted(ctx, candidates[i])
    ensures Payloads(ctx, candidates) != [] && Payloads(ctx, candidates)[0] == candidates[i].payload.value
  {
    assert candidates[..i + 1][..i] == candidates[..i];
    PayloadsJoin(ctx, candidates[..i + 1], candidates[i + 1..]);
    assert candidates[..i + 1] + candidates[i + 1..] == candidates;
  }

  method EvaluateMock<D>(ctx: Context<D>, rules: seq<Rule<D>>) returns (response: Option<D>)
    ensures var offers := AllOffers(ctx, InPriorityOrder(rules));
      response == if offers == [] then None else Some(offers[0])
  {
    var entries := AllEntries(ctx, InPriorityOrder(rules));
    var candidates := IndexedCandidates(entries, ctx.input, ctx.others);
    for i := 0 to |candidates|
      invariant Payloads(ctx, candidates[..i]) == []
    {
      assert candidates[..i + 1][..i] == candidates[..i];
      if Admitted(ctx, candidates[i]) {
        FirstPayload(ctx, candidates, i);
        CollectedAreTheOffers(ctx, InPriorityOrder(rules));
        return Some(candidates[i].payload.value);
      }
    }
    assert candidates[..|candidates|] == candidates;
    CollectedAreTheOffers(ctx, InPriorityOrder(rules));
    response := None;
  }
}
