/** The running probe tasks of fault detection and the two event-fed snapshots they come from. */
module FaultDetection {
  import opened QuotaTypes
  import opened StableSorting

  datatype ServiceKey = ServiceKey(namespace: string, name: string)

  datatype Protocol = Http | Tcp | Udp | Unknown

  /** `probe` stands for the settings of the probe: interval, timeout, port and payloads. */
  datatype SubRule = SubRule(disable: bool, protocol: Protocol, probe: string)
  datatype FaultDetectRule = FaultDetectRule(id: string, priority: int, target: Option<ServiceKey>, rules: seq<SubRule>)

  datatype Plan = Plan(ruleId: string, service: ServiceKey, protocol: Protocol, probe: string)

  datatype Instance = Instance(ip: string, available: bool)
  datatype ServiceInstances = ServiceInstances(service: ServiceKey, instances: seq<Instance>)

  datatype Target = Target(host: string, plans: seq<Plan>)

  /** One probe loop: a plan run against a host. */
  datatype Task = Task(host: string, plan: Plan)

  const BY_PRIORITY: FaultDetectRule -> int := (rule: FaultDetectRule) => rule.priority

  function PlanOf(id: string, target: ServiceKey, sub: SubRule): seq<Plan> {
    if sub.disable || sub.protocol == Unknown then [] else [Plan(id, target, sub.protocol, sub.probe)]
  }

  function PlansOf(rule: FaultDetectRule, n: nat): seq<Plan>
    requires n <= |rule.rules|
  {
    if n == 0 || rule.target.None? then []
    else PlansOf(rule, n - 1) + PlanOf(rule.id, rule.target.value, rule.rules[n - 1])
  }

  function Flattened(rules: seq<FaultDetectRule>): seq<Plan> {
    if rules == [] then [] else PlansOf(rules[0], |rules[0].rules|) + Flattened(rules[1..])
  }

  function BuildPlans(rules: seq<FaultDetectRule>): seq<Plan> {
    Flattened(SortBy(rules, BY_PRIORITY))
  }

  // ---- which plans the rules call for

  /** The rule has a target, and the sub-rule, switched on and of a known protocol, probes it by this plan. */
  predicate CallsFor(rule: FaultDetectRule, sub: SubRule, plan: Plan) {
    && rule.target.Some? && !sub.disable && sub.protocol != Unknown
    && plan == Plan(rule.id, rule.target.value, sub.protocol, sub.probe)
  }

  /** How many of the first `n` sub-rules call for a plan, and how many under all rules. */
  function CallsIn(rule: FaultDetectRule, n: nat, plan: Plan): nat
    requires n <= |rule.rules|
  {
    if n == 0 then 0 else CallsIn(rule, n - 1, plan) + if CallsFor(rule, rule.rules[n - 1], plan) then 1 else 0
  }

  function Calls(rules: seq<FaultDetectRule>, plan: Plan): nat {
    if rules == [] then 0 else CallsIn(rules[0], |rules[0].rules|, plan) + Calls(rules[1..], plan)
  }

  lemma PlanOfCount(rule: FaultDetectRule, sub: SubRule, plan: Plan)
    requires rule.target.Some?
    ensures multiset(PlanOf(rule.id, rule.target.value, sub))[plan] == if CallsFor(rule, sub, plan) then 1 else 0
  {
  }

  lemma {:induction false} PlansOfCount(rule: FaultDetectRule, n: nat, plan: Plan)
    requires n <= |rule.rules|
    ensures multiset(PlansOf(rule, n))[plan] == CallsIn(rule, n, plan)
  {
    if n > 0 {
      PlansOfCount(rule, n - 1, plan);
      if rule.target.Some? {
        PlanOfCount(rule, rule.rules[n - 1], plan);
        assert PlansOf(rule, n) == PlansOf(rule, n - 1) + PlanOf(rule.id, rule.target.value, rule.rules[n - 1]);
      } else {
        assert PlansOf(rule, n) == PlansOf(rule, n - 1);
      }
    }
  }

  lemma {:induction false} FlattenedCount(rules: seq<FaultDetectRule>, plan: Plan)
    ensures multiset(Flattened(rules))[plan] == Calls(rules, plan)
  {
    if rules != [] {
      PlansOfCount(rules[0], |rules[0].rules|, plan);
      FlattenedCount(rules[1..], plan);
    }
  }

  lemma {:induction false} InsertedCount(
      rule: FaultDetectRule, rules: seq<FaultDetectRule>, key: FaultDetectRule -> int, plan: Plan)
    ensures multiset(Flattened(InsertBy(rule, rules, key)))[plan]
         == multiset(PlansOf(rule, |rule.rules|))[plan] + multiset(Flattened(rules))[plan]
  {
    if rules == [] || key(rule) <= key(rules[0]) {
      assert ([rule] + rules)[1..] == rules;
    } else {
      InsertedCount(rule, rules[1..], key, plan);
      assert ([rules[0]] + InsertBy(rule, rules[1..], key))[1..] == InsertBy(rule, rules[1..], key);
    }
  }

  lemma {:induction false} SortedCount(rules: seq<FaultDetectRule>, key: FaultDetectRule -> int, plan: Plan)
    ensures multiset(Flattened(SortBy(rules, key)))[plan] == multiset(Flattened(rules))[plan]
  {
    if rules != [] {
      SortedCount(rules[1..], key, plan);
      InsertedCount(rules[0], SortBy(rules[1..], key), key, plan);
    }
  }

  /** A plan is built once for every sub-rule that calls for it, in whatever order the rules come. */
  lemma BuiltPlansCount(rules: seq<FaultDetectRule>, plan: Plan)
    ensures multiset(BuildPlans(rules))[plan] == Calls(rules, plan)
  {
    SortedCount(rules, BY_PRIORITY, plan);
    FlattenedCount(rules, plan);
  }

  function PlansFor(service: ServiceKey, plans: seq<Plan>): seq<Plan> {
    Filter(plans, (plan: Plan) => plan.service == service)
  }

  function TargetsOf(instances: seq<Instance>, plans: seq<Plan>): seq<Target> {
    if instances == [] then []
    else (if instances[0].available then [Target(instances[0].ip, plans)] else []) + TargetsOf(instances[1..], plans)
  }

  function BuildTargets(service: ServiceInstances, plans: seq<Plan>): seq<Target> {
    var matching := PlansFor(service.service, plans);
    if matching == [] then [] else TargetsOf(service.instances, matching)
  }

  function TasksOf(target: Target): seq<Task> {
    seq(|target.plans|, k requires 0 <= k < |target.plans| => Task(target.host, target.plans[k]))
  }

  function FlatMap<T, U>(s: seq<T>, f: T -> seq<U>): seq<U> {
    if s == [] then [] else FlatMap(s[..|s| - 1], f) + f(s[|s| - 1])
  }

  const TASKS: Target -> seq<Task> := (target: Target) => TasksOf(target)

  function AllTasks(targets: seq<Target>): seq<Task> {
    FlatMap(targets, TASKS)
  }

  // ---- what should be running

  /** The available instances of a service at one address. */
  function Hosts(instances: seq<Instance>, host: string): nat {
    if instances == [] then 0
    else IsHost(instances[0], host) + Hosts(instances[1..], host)
  }

  function PlansUnder(plans: map<string, seq<Plan>>, key: string): seq<Plan> {
    if key in plans then plans[key] else []
  }

  /** How many tasks one service key stands for: instances at the host times copies of the plan stored
      under the same key, provided the plan names the service of the instances. */
  function TaskShare(
      plans: map<string, seq<Plan>>, instances: map<string, ServiceInstances>, key: string, task: Task): nat {
    if key in instances && task.plan.service == instances[key].service
    then Hosts(instances[key].instances, task.host) * multiset(PlansUnder(plans, key))[task.plan]
    else 0
  }

  ghost function SumOver(keys: set<string>, share: string -> nat): nat {
    if keys == {} then 0
    else
      var key :| key in keys;
      share(key) + SumOver(keys - {key}, share)
  }

  ghost function ShareOf(
      plans: map<string, seq<Plan>>, instances: map<string, ServiceInstances>, task: Task): string -> nat {
    (key: string) => TaskShare(plans, instances, key, task)
  }

  /** The copies of a task the two snapshots ask for. */
  ghost function Wanted(plans: map<string, seq<Plan>>, instances: map<string, ServiceInstances>, task: Task): nat {
    SumOver(instances.Keys, ShareOf(plans, instances, task))
  }

  lemma {:induction false} SumRemoves(keys: set<string>, share: string -> nat, key: string)
    requires key in keys
    ensures SumOver(keys, share) == share(key) + SumOver(keys - {key}, share)
  {
    var first :| first in keys && SumOver(keys, share) == share(first) + SumOver(keys - {first}, share);
    if first != key {
      SumRemoves(keys - {first}, share, key);
      SumRemoves(keys - {key}, share, first);
      assert keys - {first} - {key} == keys - {key} - {first};
    }
  }

  lemma {:induction false} FilterCounts(plans: seq<Plan>, service: ServiceKey, plan: Plan)
    ensures multiset(PlansFor(service, plans))[plan] == if plan.service == service then multiset(plans)[plan] else 0
  {
    if plans != [] {
      FilterCounts(plans[1..], service, plan);
      assert plans == [plans[0]] + plans[1..];
    }
  }

  lemma {:induction false} TasksCount(host: string, plans: seq<Plan>, task: Task)
    ensures multiset(TasksOf(Target(host, plans)))[task] == if task.host == host then multiset(plans)[task.plan] else 0
  {
    if plans != [] {
      var n := |plans| - 1;
      TasksCount(host, plans[..n], task);
      assert plans == plans[..n] + [plans[n]];
      assert TasksOf(Target(host, plans)) == TasksOf(Target(host, plans[..n])) + [Task(host, plans[n])];
    }
  }

  lemma OneMoreTarget(targets: seq<Target>, target: Target)
    ensures AllTasks(targets + [target]) == AllTasks(targets) + TasksOf(target)
  {
    assert (targets + [target])[..|targets|] == targets;
  }

  lemma {:induction false} FlatMapJoins<T, U>(a: seq<T>, b: seq<T>, f: T -> seq<U>)
    ensures FlatMap(a + b, f) == FlatMap(a, f) + FlatMap(b, f)
  {
    if b == [] {
      assert a + b == a;
    } else {
      var init, last := b[..|b| - 1], b[|b| - 1];
      FlatMapJoins(a, init, f);
      assert (a + b)[..|a + b| - 1] == a + init;
      assert FlatMap(a, f) + FlatMap(init, f) + f(last) == FlatMap(a, f) + (FlatMap(init, f) + f(last));
    }
  }

  lemma AllTasksJoin(a: seq<Target>, b: seq<Target>)
    ensures AllTasks(a + b) == AllTasks(a) + AllTasks(b)
  {
    FlatMapJoins(a, b, TASKS);
  }

  lemma TargetFirst(target: Target, rest: seq<Target>, task: Task)
    ensures multiset(AllTasks([target] + rest))[task]
        == multiset(TasksOf(target))[task] + multiset(AllTasks(rest))[task]
  {
    AllTasksJoin([target], rest);
    OneMoreTarget([], target);
    assert [] + [target] == [target] && AllTasks([target]) == TasksOf(target);
  }

  lemma MoreHosts(all: nat, more: nat, hosts: nat, copies: nat, count: nat, before: nat)
    requires more <= 1 && all == more + hosts
    requires before == hosts * copies && count == before + if more == 1 then copies else 0
    ensures count == all * copies
  {
    assert (more + hosts) * copies == more * copies + hosts * copies;
  }

  function IsHost(instance: Instance, host: string): nat {
    if instance.available && instance.ip == host then 1 else 0
  }

  /** One instance adds a copy of every plan, if it is available. */
  lemma OneMoreInstance(instances: seq<Instance>, plans: seq<Plan>, task: Task)
    requires instances != []
    ensures multiset(AllTasks(TargetsOf(instances, plans)))[task] ==
      multiset(AllTasks(TargetsOf(instances[1..], plans)))[task]
      + if IsHost(instances[0], task.host) == 1 then multiset(plans)[task.plan] else 0
  {
    if instances[0].available {
      TargetFirst(Target(instances[0].ip, plans), TargetsOf(instances[1..], plans), task);
      TasksCount(instances[0].ip, plans, task);
    } else {
      assert TargetsOf(instances, plans) == TargetsOf(instances[1..], plans);
    }
  }

  lemma {:induction false} TargetsCount(instances: seq<Instance>, plans: seq<Plan>, task: Task)
    ensures multiset(AllTasks(TargetsOf(instances, plans)))[task]
        == Hosts(instances, task.host) * multiset(plans)[task.plan]
  {
    if instances != [] {
      TargetsCount(instances[1..], plans, task);
      OneMoreInstance(instances, plans, task);
      MoreHosts(Hosts(instances, task.host), IsHost(instances[0], task.host), Hosts(instances[1..], task.host),
        multiset(plans)[task.plan], multiset(AllTasks(TargetsOf(instances, plans)))[task],
        multiset(AllTasks(TargetsOf(instances[1..], plans)))[task]);
    }
  }

  /** The targets built for one key carry exactly its share of every task. */
  lemma BuiltTargetsCount(
      plans: map<string, seq<Plan>>, instances: map<string, ServiceInstances>, key: string, task: Task)
    requires key in instances
    ensures multiset(AllTasks(BuildTargets(instances[key], PlansUnder(plans, key))))[task]
        == TaskShare(plans, instances, key, task)
  {
    BuiltCount(instances[key], PlansUnder(plans, key), task);
  }

  lemma BuiltCount(service: ServiceInstances, plans: seq<Plan>, task: Task)
    ensures multiset(AllTasks(BuildTargets(service, plans)))[task] ==
      if task.plan.service == service.service then Hosts(service.instances, task.host) * multiset(plans)[task.plan]
        else 0
  {
    var matching := PlansFor(service.service, plans);
    FilterCounts(plans, service.service, task.plan);
    var n, hosts := multiset(matching)[task.plan], Hosts(service.instances, task.host);
    if matching == [] {
      assert n == 0 && BuildTargets(service, plans) == [];
    } else {
      TargetsCount(service.instances, matching, task);
    }
    if n == 0 {
      assert hosts * n == 0;
    }
  }

  class FaultDetectLifecycleOwner {
    /** The running tasks. */
    var handles: seq<Task>

    constructor ()
      ensures handles == []
    {
      handles := [];
    }

    method StartTargets(targets: seq<Target>)
      modifies this
      ensures handles == old(handles) + AllTasks(targets)
    {
      for i := 0 to |targets|
        invariant handles == old(handles) + AllTasks(targets[..i])
      {
        assert targets[..i + 1][..i] == targets[..i];
        handles := handles + TasksOf(targets[i]);
      }
      assert targets[..|targets|] == targets;
    }

    method Stop()
      modifies this
      ensures handles == []
    {
      handles := [];
    }
  }

  datatype Event =
    | RulesChanged(key: string, rules: seq<FaultDetectRule>)
    | RulesDeleted(key: string)
    | InstancesChanged(key: string, service: ServiceInstances)
    | InstancesDeleted(key: string)
    | Unrelated

  /** What an event leaves of the two snapshots. */
  function PlansAfter(plans: map<string, seq<Plan>>, event: Event): map<string, seq<Plan>> {
    match event
    case RulesChanged(key, rules) => plans[key := BuildPlans(rules)]
    case RulesDeleted(key) => plans - {key}
    case _ => plans
  }

  function InstancesAfter(instances: map<string, ServiceInstances>, event: Event): map<string, ServiceInstances> {
    match event
    case InstancesChanged(key, service) => instances[key := service]
    case InstancesDeleted(key) => instances - {key}
    case _ => instances
  }

  function PlansAfterAll(events: seq<Event>): map<string, seq<Plan>> {
    if events == [] then map[] else PlansAfter(PlansAfterAll(events[..|events| - 1]), events[|events| - 1])
  }

  function InstancesAfterAll(events: seq<Event>): map<string, ServiceInstances> {
    if events == [] then map[] else InstancesAfter(InstancesAfterAll(events[..|events| - 1]), events[|events| - 1])
  }

  class FaultDetectResourceListener {
    const owner: FaultDetectLifecycleOwner
    var plans: map<string, seq<Plan>>
    var instances: map<string, ServiceInstances>

    /** Every task runs as often as the snapshots ask for, no task more. */
    ghost predicate InStep()
      reads this, owner
    {
      forall task :: multiset(owner.handles)[task] == Wanted(plans, instances, task)
    }

    constructor (owner: FaultDetectLifecycleOwner)
      requires owner.handles == []
      ensures this.owner == owner && plans == map[] && instances == map[] && InStep()
    {
      this.owner, plans, instances := owner, map[], map[];
    }

    method ReloadTargets()
      modifies owner
      ensures InStep()
    {
      var targets: seq<Target>, left := [], instances.Keys;
      while left != {}
        invariant left <= instances.Keys
        invariant forall task :: multiset(AllTasks(targets))[task] + SumOver(left, ShareOf(plans, instances, task))
                              == Wanted(plans, instances, task)
        decreases |left|
      {
        var key :| key in left;
        var built := BuildTargets(instances[key], PlansUnder(plans, key));
        forall task
          ensures multiset(AllTasks(targets + built))[task] + SumOver(left - {key}, ShareOf(plans, instances, task))
               == Wanted(plans, instances, task)
        {
          AllTasksJoin(targets, built);
          BuiltTargetsCount(plans, instances, key, task);
          SumRemoves(left, ShareOf(plans, instances, task), key);
        }
        targets := targets + built;
        left := left - {key};
      }
      owner.Stop();
      if targets != [] {
        owner.StartTargets(targets);
      }
      assert owner.handles == AllTasks(targets);
    }

    /** Handles one event: the snapshots follow it and the tasks follow the snapshots. */
    method ApplyEvent(event: Event)
      requires InStep()
      modifies this, owner
      ensures plans == PlansAfter(old(plans), event) && instances == InstancesAfter(old(instances), event)
      ensures event.RulesChanged? ==>
        event.key in plans && forall plan :: multiset(plans[event.key])[plan] == Calls(event.rules, plan)
      ensures InStep()
    {
      if event.RulesChanged? {
        forall plan
          ensures multiset(BuildPlans(event.rules))[plan] == Calls(event.rules, plan)
        {
          BuiltPlansCount(event.rules, plan);
        }
      }
      match event {
        case RulesDeleted(key) => plans := plans - {key};
        case InstancesDeleted(key) => instances := instances - {key};
        case RulesChanged(key, rules) => plans := plans[key := BuildPlans(rules)];
        case InstancesChanged(key, service) => instances := instances[key := service];
        case Unrelated => return;
      }
      ReloadTargets();
    }

    /** Any sequence of events, handled one after the other. */
    method ApplyEvents(events: seq<Event>)
      requires plans == map[] && instances == map[] && InStep()
      modifies this, owner
      ensures plans == PlansAfterAll(events) && instances == InstancesAfterAll(events)
      ensures forall task ::
        multiset(owner.handles)[task] == Wanted(PlansAfterAll(events), InstancesAfterAll(events), task)
    {
      for i := 0 to |events|
        invariant plans == PlansAfterAll(events[..i]) && instances == InstancesAfterAll(events[..i]) && InStep()
      {
        assert events[..i + 1][..i] == events[..i];
        ApplyEvent(events[i]);
      }
      assert events[..|events|] == events;
    }
  }
}
