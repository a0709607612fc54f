/** What a lease held at a quota limiter asks to settle, counter by counter, and which answers of the
    limiter are accepted. */
module Settlements {
  import opened QuotaTypes

  datatype Group = Group(resource: QuotaResource, amount: nat, accounting: Accounting, counterKeys: seq<nat>)

  /** The limiter's answer to the window initialisation of one resource. */
  datatype Init = Init(resource: QuotaResource, amount: nat, accounting: Accounting, clientKey: nat,
    counterKeys: seq<nat>)

  datatype RemoteConsumption = RemoteConsumption(counterKey: nat, consumedTotal: nat)

  datatype Settlement = Settlement(counterKey: nat, consumedTotal: nat, returnedAmount: nat)

  datatype Opened = Opened(clientKey: nat, groups: seq<Group>)

  function AllKeys(groups: seq<Group>): seq<nat> {
    if groups == [] then [] else AllKeys(groups[..|groups| - 1]) + groups[|groups| - 1].counterKeys
  }

  predicate Distinct(keys: seq<nat>) {
    forall i, j :: 0 <= i < j < |keys| ==> keys[i] != keys[j]
  }

  function GroupOf(init: Init): Group {
    Group(init.resource, init.amount, init.accounting, init.counterKeys)
  }

  function GroupsOf(inits: seq<Init>): seq<Group> {
    seq(|inits|, i requires 0 <= i < |inits| => GroupOf(inits[i]))
  }

  /** Records the counter keys of one answer; stops at the first that repeats. */
  method TakeKeys(ghost before: seq<nat>, seen: set<nat>, keys: seq<nat>) returns (distinct: bool, extended: set<nat>)
    requires Distinct(before) && forall key :: key in seen <==> key in before
    ensures distinct <==> Distinct(before + keys)
    ensures distinct ==> forall key :: key in extended <==> key in before + keys
  {
    extended := seen;
    for k := 0 to |keys|
      invariant forall key :: key in extended <==> key in before + keys[..k]
      invariant Distinct(before + keys[..k])
    {
      assert before + keys[..k] + [keys[k]] == before + keys[..k + 1];
      if keys[k] in extended {
        RepeatedKey(before + keys[..k], keys[k]);
        assert (before + keys)[..|before| + k + 1] == before + keys[..k + 1];
        NotDistinctPrefix(before + keys, |before| + k + 1);
        return false, extended;
      }
      extended := extended + {keys[k]};
    }
    assert keys[..|keys|] == keys;
    distinct := true;
  }

  /** The groups of one lease are taken exactly when the answers agree on the client and no counter key
      repeats, within an answer or across them. */
  method CollectGroups(inits: seq<Init>) returns (lease: Result<Opened>)
    requires inits != []
    ensures lease.Ok? <==>
      (forall i :: 0 <= i < |inits| ==> inits[i].clientKey == inits[0].clientKey) && Distinct(AllKeys(GroupsOf(inits)))
    ensures lease.Ok? ==> lease.value == Opened(inits[0].clientKey, GroupsOf(inits))
    ensures lease.Err? ==> lease.error == InvalidResponse
  {
    var groups: seq<Group>, seen: set<nat> := [], {};
    ghost var all := GroupsOf(inits);
    for i := 0 to |inits|
      invariant groups == all[..i] && Distinct(AllKeys(all[..i]))
      invariant forall j :: 0 <= j < i ==> inits[j].clientKey == inits[0].clientKey
      invariant forall key :: key in seen <==> key in AllKeys(all[..i])
    {
      if inits[i].clientKey != inits[0].clientKey {
        return Err(InvalidResponse);
      }
      AllKeysExtend(all, i);
      var taken, extended := TakeKeys(AllKeys(all[..i]), seen, inits[i].counterKeys);
      if !taken {
        NotDistinctPrefix(AllKeys(all), |AllKeys(all[..i + 1])|);
        return Err(InvalidResponse);
      }
      seen := extended;
      groups := groups + [GroupOf(inits[i])];
    }
    assert all[..|inits|] == all;
    lease := Ok(Opened(inits[0].clientKey, groups));
  }

  lemma RepeatedKey(keys: seq<nat>, key: nat)
    requires key in keys
    ensures !Distinct(keys + [key])
  {
    var i :| 0 <= i < |keys| && keys[i] == key;
    assert (keys + [key])[i] == (keys + [key])[|keys|];
  }

  lemma NotDistinctPrefix(keys: seq<nat>, n: nat)
    requires n <= |keys| && !Distinct(keys[..n])
    ensures !Distinct(keys)
  {
    var i, j :| 0 <= i < j < n && keys[..n][i] == keys[..n][j];
    assert keys[i] == keys[j];
  }

  /** The keys of the first groups are a prefix of all keys. */
  lemma {:induction false} AllKeysExtend(groups: seq<Group>, i: nat)
    requires i < |groups|
    ensures AllKeys(groups[..i + 1]) == AllKeys(groups[..i]) + groups[i].counterKeys
    ensures |AllKeys(groups[..i + 1])| <= |AllKeys(groups)|
    ensures AllKeys(groups)[..|AllKeys(groups[..i + 1])|] == AllKeys(groups[..i + 1])
    decreases |groups|
  {
    assert groups[..i + 1][..i] == groups[..i];
    if i + 1 == |groups| {
      assert groups[..i + 1] == groups;
    } else {
      var init := groups[..|groups| - 1];
      AllKeysExtend(init, i);
      assert init[..i + 1] == groups[..i + 1] && init[..i] == groups[..i];
    }
  }

  function GroupConsumptions(group: Group, total: nat): seq<RemoteConsumption> {
    seq(|group.counterKeys|, k requires 0 <= k < |group.counterKeys| => RemoteConsumption(group.counterKeys[k], total))
  }

  /** Every counter of a group gets the total of the group's resource. */
  function Expanded(groups: seq<Group>, consumptions: seq<QuotaConsumption>): Result<seq<RemoteConsumption>> {
    if groups == [] then Ok([])
    else
      var last := groups[|groups| - 1];
      match Expanded(groups[..|groups| - 1], consumptions)
      case Err(error) => Err(error)
      case Ok(rest) =>
        match TotalFor(consumptions, last.resource)
        case None => Err(ApiInvalidArgument)
        case Some(total) => Ok(rest + GroupConsumptions(last, total))
  }

  method ExpandConsumptions(
      groups: seq<Group>, consumptions: seq<QuotaConsumption>) returns (expanded: Result<seq<RemoteConsumption>>)
    ensures expanded == Expanded(groups, consumptions)
    ensures expanded.Ok? <==> forall i :: 0 <= i < |groups| ==> TotalFor(consumptions, groups[i].resource).Some?
    ensures expanded.Err? ==> expanded.error == ApiInvalidArgument
    ensures expanded.Ok? ==> |expanded.value| == CountKeys(groups)
  {
    var list: seq<RemoteConsumption> := [];
    for i := 0 to |groups|
      invariant Expanded(groups[..i], consumptions) == Ok(list) && |list| == CountKeys(groups[..i])
      invariant forall j :: 0 <= j < i ==> TotalFor(consumptions, groups[j].resource).Some?
    {
      assert groups[..i + 1][..i] == groups[..i];
      var total := TotalFor(consumptions, groups[i].resource);
      if total.None? {
        MissingStays(groups, consumptions, i + 1);
        return Err(ApiInvalidArgument);
      }
      list := list + GroupConsumptions(groups[i], total.value);
    }
    assert groups[..|groups|] == groups;
    expanded := Ok(list);
  }

  lemma {:induction false} MissingStays(groups: seq<Group>, consumptions: seq<QuotaConsumption>, n: nat)
    requires n <= |groups| && Expanded(groups[..n], consumptions).Err?
    ensures Expanded(groups, consumptions) == Expanded(groups[..n], consumptions)
    decreases |groups|
  {
    if n == |groups| {
      assert groups[..n] == groups;
    } else {
      var init := groups[..|groups| - 1];
      assert init[..n] == groups[..n];
      MissingStays(init, consumptions, n);
    }
  }

  // ---- normalised consumptions

  predicate Below(a: RemoteConsumption, b: RemoteConsumption) {
    a.counterKey < b.counterKey || (a.counterKey == b.counterKey && a.consumedTotal <= b.consumedTotal)
  }

  function InsertConsumption(x: RemoteConsumption, s: seq<RemoteConsumption>): seq<RemoteConsumption> {
    if s == [] || Below(x, s[0]) then [x] + s else [s[0]] + InsertConsumption(x, s[1..])
  }

  /** Sorted by counter, then by total. */
  function Normalized(s: seq<RemoteConsumption>): seq<RemoteConsumption> {
    if s == [] then [] else InsertConsumption(s[0], Normalized(s[1..]))
  }

  predicate Ordered(s: seq<RemoteConsumption>) {
    forall i, j :: 0 <= i < j < |s| ==> Below(s[i], s[j])
  }

  lemma {:induction false} InsertKeeps(x: RemoteConsumption, s: seq<RemoteConsumption>)
    ensures multiset(InsertConsumption(x, s)) == multiset{x} + multiset(s)
  {
    if s != [] && !Below(x, s[0]) {
      InsertKeeps(x, s[1..]);
      assert s == [s[0]] + s[1..];
    }
  }

  lemma {:induction false} InsertKeepsOrder(x: RemoteConsumption, s: seq<RemoteConsumption>)
    requires Ordered(s)
    ensures Ordered(InsertConsumption(x, s))
  {
    if s != [] && !Below(x, s[0]) {
      InsertKeepsOrder(x, s[1..]);
      InsertKeeps(x, s[1..]);
      var rest := InsertConsumption(x, s[1..]);
      forall i | 0 <= i < |rest|
        ensures Below(s[0], rest[i])
      {
        assert rest[i] in multiset(rest);
        assert rest[i] == x || rest[i] in s[1..];
      }
    }
  }

  lemma {:induction false} NormalizedIsOrdered(s: seq<RemoteConsumption>)
    ensures Ordered(Normalized(s)) && multiset(Normalized(s)) == multiset(s)
  {
    if s != [] {
      NormalizedIsOrdered(s[1..]);
      InsertKeeps(s[0], Normalized(s[1..]));
      InsertKeepsOrder(s[0], Normalized(s[1..]));
      assert s == [s[0]] + s[1..];
    }
  }

  lemma LeastIsFirst(s: seq<RemoteConsumption>, x: RemoteConsumption)
    requires Ordered(s) && x in multiset(s)
    ensures s != [] && Below(s[0], x)
  {
    var i :| 0 <= i < |s| && s[i] == x;
  }

  lemma WithoutFirst(s: seq<RemoteConsumption>)
    requires s != []
    ensures s[0] in multiset(s) && multiset(s[1..]) == multiset(s) - multiset{s[0]}
  {
    assert s == [s[0]] + s[1..];
  }

  lemma {:induction false} OrderedIsUnique(a: seq<RemoteConsumption>, b: seq<RemoteConsumption>)
    requires Ordered(a) && Ordered(b) && multiset(a) == multiset(b)
    ensures a == b
  {
    if a == [] {
      assert |multiset(b)| == 0;
    } else {
      WithoutFirst(a);
      LeastIsFirst(b, a[0]);
      WithoutFirst(b);
      LeastIsFirst(a, b[0]);
      OrderedIsUnique(a[1..], b[1..]);
      assert a[0] == b[0] && a == [a[0]] + a[1..] && b == [b[0]] + b[1..];
    }
  }

  /** The echo of an update is accepted exactly when it lists the same consumptions with the same
      multiplicities, in any order. */
  lemma {:induction false} SameConsumptionsIff(a: seq<RemoteConsumption>, b: seq<RemoteConsumption>)
    ensures Normalized(a) == Normalized(b) <==> multiset(a) == multiset(b)
  {
    NormalizedIsOrdered(a);
    NormalizedIsOrdered(b);
    if multiset(a) == multiset(b) {
      OrderedIsUnique(Normalized(a), Normalized(b));
    }
  }

  // ---- settlements

  /** What one counter of a group must report. */
  predicate Accounts(group: Group, consumed: nat, returned: nat) {
    match group.accounting
    case Consumable => returned + (if consumed <= group.amount then consumed else group.amount) == group.amount
    case Occupancy => returned == group.amount
  }

  function ByCounter(settlements: seq<Settlement>): map<nat, (nat, nat)> {
    if settlements == [] then map[]
    else
      var last := settlements[|settlements| - 1];
      ByCounter(settlements[..|settlements| - 1])[last.counterKey := (last.consumedTotal, last.returnedAmount)]
  }

  /** Of several lines for one counter the last is taken. */
  lemma {:induction false} LastLineCounts(settlements: seq<Settlement>, key: nat)
    ensures var settled := ByCounter(settlements);
      && (key in settled <==> exists i :: 0 <= i < |settlements| && settlements[i].counterKey == key)
      && forall i ::
           0 <= i < |settlements| && settlements[i].counterKey == key
           && (forall j :: i < j < |settlements| ==> settlements[j].counterKey != key)
           ==> settled[key] == (settlements[i].consumedTotal, settlements[i].returnedAmount)
  {
    if settlements != [] {
      var init, last := settlements[..|settlements| - 1], settlements[|settlements| - 1];
      LastLineCounts(init, key);
      assert forall i :: 0 <= i < |init| ==> settlements[i] == init[i];
      forall i |
        && 0 <= i < |settlements| && settlements[i].counterKey == key
        && (forall j :: i < j < |settlements| ==> settlements[j].counterKey != key)
        ensures key in ByCounter(settlements)
        ensures ByCounter(settlements)[key] == (settlements[i].consumedTotal, settlements[i].returnedAmount)
      {
        if i < |init| {
          assert settlements[|init|] == last && last.counterKey != key;
          assert init[i].counterKey == key && forall j :: i < j < |init| ==> init[j].counterKey != key;
        }
      }
    }
  }

  /** The total asked for a counter; the largest 32-bit value when the request has none. */
  function RequestedTotal(requested: seq<RemoteConsumption>, key: nat): nat {
    if requested == [] then U32_MAX
    else if requested[0].counterKey == key then requested[0].consumedTotal
    else RequestedTotal(requested[1..], key)
  }

  function ExpectedReturn(group: Group, consumed: nat): nat {
    match group.accounting
    case Consumable => SatSub(group.amount, consumed)
    case Occupancy => group.amount
  }

  predicate CounterSettled(group: Group, key: nat, requested: seq<RemoteConsumption>, settled: map<nat, (nat, nat)>) {
    var consumed := RequestedTotal(requested, key);
    key in settled && settled[key] == (consumed, ExpectedReturn(group, consumed))
  }

  predicate GroupSettled(group: Group, requested: seq<RemoteConsumption>, settled: map<nat, (nat, nat)>) {
    forall k :: 0 <= k < |group.counterKeys| ==> CounterSettled(group, group.counterKeys[k], requested, settled)
  }

  function CountKeys(groups: seq<Group>): nat {
    if groups == [] then 0 else CountKeys(groups[..|groups| - 1]) + |groups[|groups| - 1].counterKeys|
  }

  /** The check `settle_lease` makes on a successful answer. */
  predicate SettlementMatches(groups: seq<Group>, consumptions: seq<RemoteConsumption>, settlements: seq<Settlement>) {
    var requested, settled := Normalized(consumptions), ByCounter(settlements);
    && (forall i :: 0 <= i < |groups| ==> GroupSettled(groups[i], requested, settled))
    && |settled| == CountKeys(groups)
  }

  /** The settlements name exactly the counters of the lease, and each counter reports the total of its
      resource and gives back the rest. */
  ghost predicate SettlesExactly(
      groups: seq<Group>, consumptions: seq<QuotaConsumption>, settlements: seq<Settlement>) {
    var settled := ByCounter(settlements);
    && (forall key :: key in settled <==> key in AllKeys(groups))
    && forall i, k :: 0 <= i < |groups| && 0 <= k < |groups[i].counterKeys| ==>
         && groups[i].counterKeys[k] in settled
         && TotalFor(consumptions, groups[i].resource) == Some(settled[groups[i].counterKeys[k]].0)
         && Accounts(groups[i], settled[groups[i].counterKeys[k]].0, settled[groups[i].counterKeys[k]].1)
  }

  lemma {:induction false} RequestedIsMember(s: seq<RemoteConsumption>, x: RemoteConsumption)
    requires x in s && forall y :: y in s && y.counterKey == x.counterKey ==> y == x
    ensures RequestedTotal(s, x.counterKey) == x.consumedTotal
  {
    if s[0].counterKey != x.counterKey {
      RequestedIsMember(s[1..], x);
    } else {
      assert s[0] in s;
    }
  }

  lemma {:induction false} KeyCount(groups: seq<Group>)
    ensures |AllKeys(groups)| == CountKeys(groups)
  {
    if groups != [] {
      KeyCount(groups[..|groups| - 1]);
    }
  }

  lemma {:induction false} KeyOfGroup(groups: seq<Group>, i: nat, key: nat)
    requires i < |groups| && key in groups[i].counterKeys
    ensures key in AllKeys(groups)
    decreases |groups|
  {
    if i < |groups| - 1 {
      KeyOfGroup(groups[..|groups| - 1], i, key);
    }
  }

  lemma {:induction false} GroupOfKey(groups: seq<Group>, key: nat) returns (i: nat)
    requires key in AllKeys(groups)
    ensures i < |groups| && key in groups[i].counterKeys
  {
    var n := |groups| - 1;
    if key in groups[n].counterKeys {
      i := n;
    } else {
      i := GroupOfKey(groups[..n], key);
    }
  }

  /** What is asked for a counter, found through its place in the list of all keys. */
  lemma {:induction false} ExpandedMembers(
      groups: seq<Group>, consumptions: seq<QuotaConsumption>, x: RemoteConsumption)
    requires Expanded(groups, consumptions).Ok?
    ensures x in Expanded(groups, consumptions).value <==>
      exists i :: 0 <= i < |groups| && x.counterKey in groups[i].counterKeys
               && TotalFor(consumptions, groups[i].resource) == Some(x.consumedTotal)
  {
    if groups != [] {
      var n := |groups| - 1;
      ExpandedMembers(groups[..n], consumptions, x);
      var rest := Expanded(groups[..n], consumptions).value;
      var total := TotalFor(consumptions, groups[n].resource).value;
      assert x in GroupConsumptions(groups[n], total)
        <==> x.counterKey in groups[n].counterKeys && x.consumedTotal == total by {
        if x.counterKey in groups[n].counterKeys && x.consumedTotal == total {
          var k :| 0 <= k < |groups[n].counterKeys| && groups[n].counterKeys[k] == x.counterKey;
          assert GroupConsumptions(groups[n], total)[k] == x;
        }
      }
      if x in rest {
        var i :| 0 <= i < n && x.counterKey in groups[..n][i].counterKeys
              && TotalFor(consumptions, groups[..n][i].resource) == Some(x.consumedTotal);
        assert groups[i] == groups[..n][i];
      }
      if i :|
        && 0 <= i < |groups| && x.counterKey in groups[i].counterKeys
        && TotalFor(consumptions, groups[i].resource) == Some(x.consumedTotal)
      {
        assert i < n ==> groups[..n][i] == groups[i];
      }
    }
  }

  /** With distinct counters, a key belongs to one group. */
  lemma {:induction false} OneOwner(groups: seq<Group>, i: nat, j: nat, key: nat)
    requires Distinct(AllKeys(groups)) && i < |groups| && j < |groups|
    requires key in groups[i].counterKeys && key in groups[j].counterKeys
    ensures i == j
    decreases |groups|
  {
    var n := |groups| - 1;
    var before, last := AllKeys(groups[..n]), groups[n].counterKeys;
    if i < n && j < n {
      assert (before + last)[..|before|] == before;
      if !Distinct(before) {
        NotDistinctPrefix(AllKeys(groups), |before|);
      }
      OneOwner(groups[..n], i, j, key);
    } else if i < n || j < n {
      KeyOfGroup(groups[..n], if i < n then i else j, key);
      KeyInBoth(before, last, key);
    }
  }

  lemma KeyInBoth(a: seq<nat>, b: seq<nat>, key: nat)
    requires key in a && key in b
    ensures !Distinct(a + b)
  {
    var i :| 0 <= i < |a| && a[i] == key;
    var j :| 0 <= j < |b| && b[j] == key;
    assert (a + b)[i] == (a + b)[|a| + j];
  }

  /** The total the check looks up for a counter is the one asked for its resource. */
  lemma RequestedForCounter(groups: seq<Group>, consumptions: seq<QuotaConsumption>, i: nat, key: nat)
    requires Distinct(AllKeys(groups)) && Expanded(groups, consumptions).Ok?
    requires i < |groups| && key in groups[i].counterKeys
    ensures TotalFor(consumptions, groups[i].resource)
         == Some(RequestedTotal(Normalized(Expanded(groups, consumptions).value), key))
  {
    var list := Expanded(groups, consumptions).value;
    FoundForGroup(groups, consumptions, i);
    var x := RemoteConsumption(key, TotalFor(consumptions, groups[i].resource).value);
    NormalizedIsOrdered(list);
    forall y
      ensures y in Normalized(list) <==> y in list
    {
      assert y in Normalized(list) <==> y in multiset(Normalized(list));
      assert y in list <==> y in multiset(list);
    }
    ExpandedMembers(groups, consumptions, x);
    forall y | y in list && y.counterKey == key
      ensures y == x
    {
      ExpandedMembers(groups, consumptions, y);
      var j :| 0 <= j < |groups| && y.counterKey in groups[j].counterKeys
            && TotalFor(consumptions, groups[j].resource) == Some(y.consumedTotal);
      OneOwner(groups, i, j, key);
    }
    RequestedIsMember(Normalized(list), x);
  }

  lemma {:induction false} FoundForGroup(groups: seq<Group>, consumptions: seq<QuotaConsumption>, i: nat)
    requires Expanded(groups, consumptions).Ok? && i < |groups|
    ensures TotalFor(consumptions, groups[i].resource).Some?
    decreases |groups|
  {
    if i < |groups| - 1 {
      FoundForGroup(groups[..|groups| - 1], consumptions, i);
    }
  }

  function KeySet(keys: seq<nat>): set<nat> {
    set key | key in keys
  }

  lemma {:induction false} DistinctCount(keys: seq<nat>)
    requires Distinct(keys)
    ensures |KeySet(keys)| == |keys|
  {
    if keys != [] {
      var init, last := keys[..|keys| - 1], keys[|keys| - 1];
      DistinctCount(init);
      assert keys == init + [last];
      assert last !in KeySet(init) && KeySet(keys) == KeySet(init) + {last};
    }
  }

  /** Group by group the check and the exact statement agree. */
  lemma CounterSettledIff(
      groups: seq<Group>, consumptions: seq<QuotaConsumption>, settled: map<nat, (nat, nat)>, i: nat, k: nat)
    requires Distinct(AllKeys(groups)) && Expanded(groups, consumptions).Ok?
    requires i < |groups| && k < |groups[i].counterKeys|
    ensures
      var key, requested := groups[i].counterKeys[k], Normalized(Expanded(groups, consumptions).value);
      CounterSettled(groups[i], key, requested, settled) <==>
        && key in settled && TotalFor(consumptions, groups[i].resource) == Some(settled[key].0)
        && Accounts(groups[i], settled[key].0, settled[key].1)
  {
    RequestedForCounter(groups, consumptions, i, groups[i].counterKeys[k]);
  }

  lemma CountersAreKeys(groups: seq<Group>, settled: map<nat, (nat, nat)>)
    requires Distinct(AllKeys(groups))
    requires forall key :: key in AllKeys(groups) ==> key in settled
    ensures |settled| == CountKeys(groups) <==> forall key :: key in settled ==> key in AllKeys(groups)
  {
    var keys := KeySet(AllKeys(groups));
    DistinctCount(AllKeys(groups));
    KeyCount(groups);
    assert keys <= settled.Keys && |settled.Keys| == |settled|;
    if |settled| == CountKeys(groups) {
      SubsetOfSameSize(keys, settled.Keys);
    }
    if settled.Keys <= keys {
      assert keys == settled.Keys;
    }
  }

  /** A settlement passes the check exactly when it settles exactly: with distinct counters, as every
      lease has, no counter can be missing, added or misreported. */
  lemma SettlementIsExact(groups: seq<Group>, consumptions: seq<QuotaConsumption>, settlements: seq<Settlement>)
    requires Distinct(AllKeys(groups)) && Expanded(groups, consumptions).Ok?
    ensures SettlementMatches(groups, Expanded(groups, consumptions).value, settlements)
        <==> SettlesExactly(groups, consumptions, settlements)
  {
    var settled := ByCounter(settlements);
    var requested := Normalized(Expanded(groups, consumptions).value);
    forall i, k | 0 <= i < |groups| && 0 <= k < |groups[i].counterKeys|
      ensures
        var key := groups[i].counterKeys[k];
        CounterSettled(groups[i], key, requested, settled) <==>
          && key in settled && TotalFor(consumptions, groups[i].resource) == Some(settled[key].0)
          && Accounts(groups[i], settled[key].0, settled[key].1)
    {
      CounterSettledIff(groups, consumptions, settled, i, k);
    }
    if forall i :: 0 <= i < |groups| ==> GroupSettled(groups[i], requested, settled) {
      forall key | key in AllKeys(groups)
        ensures key in settled
      {
        var i := GroupOfKey(groups, key);
        var k :| 0 <= k < |groups[i].counterKeys| && groups[i].counterKeys[k] == key;
        assert CounterSettled(groups[i], groups[i].counterKeys[k], requested, settled);
      }
      CountersAreKeys(groups, settled);
    }
    if SettlesExactly(groups, consumptions, settlements) {
      CountersAreKeys(groups, settled);
    }
  }

  const TWICE: Group := Group(Token, 5, Consumable, [1, 1])

  lemma TwiceExpanded()
    ensures AllKeys([TWICE]) == [1, 1] && CountKeys([TWICE]) == 2
    ensures Expanded([TWICE], [QuotaConsumption(Token, 3)]) == Ok([RemoteConsumption(1, 3), RemoteConsumption(1, 3)])
  {
    var groups, consumptions := [TWICE], [QuotaConsumption(Token, 3)];
    assert groups[..0] == [] && AllKeys(groups[..0]) == [] && CountKeys(groups[..0]) == 0;
    assert GroupConsumptions(TWICE, 3) == [RemoteConsumption(1, 3), RemoteConsumption(1, 3)];
    assert TotalFor(consumptions, Token) == Some(3) && Expanded(groups[..0], consumptions) == Ok([]);
    var asked := [RemoteConsumption(1, 3), RemoteConsumption(1, 3)];
    assert [] + GroupConsumptions(TWICE, 3) == asked;
    assert Expanded(groups, consumptions) == Ok([] + GroupConsumptions(TWICE, 3));
  }

  const STRAY: seq<Settlement> := [Settlement(1, 3, 2), Settlement(9, 0, 0)]

  lemma StrayByCounter()
    ensures ByCounter(STRAY) == map[1 := (3, 2), 9 := (0, 0)] && |ByCounter(STRAY)| == 2
  {
    assert STRAY[..1] == [Settlement(1, 3, 2)] && STRAY[..1][..0] == [];
    assert ByCounter(STRAY[..1]) == map[1 := (3, 2)];
    assert ByCounter(STRAY).Keys == {1, 9};
  }

  /** A counter key given twice makes the check pass a settlement of a counter the lease never had. */
  lemma RepeatedCounterMisleads()
    ensures
      var consumptions := [QuotaConsumption(Token, 3)];
      && !Distinct(AllKeys([TWICE])) && Expanded([TWICE], consumptions).Ok?
      && SettlementMatches([TWICE], Expanded([TWICE], consumptions).value, STRAY)
      && !SettlesExactly([TWICE], consumptions, STRAY)
  {
    TwiceExpanded();
    StrayByCounter();
    assert [1, 1][0] == [1, 1][1];
    var x := RemoteConsumption(1, 3);
    NormalizedIsOrdered([x, x]);
    assert Normalized([x, x])[0] in multiset([x, x]);
    assert 9 in ByCounter(STRAY);
  }
}
