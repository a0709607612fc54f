/** The limiter endpoint a quota affinity is sent to: canonical when chosen afresh, sticky while it
    stays available. */
module Endpoints {
  import opened QuotaTypes

  datatype Instance = Instance(available: bool, grpc: bool, address: string)

  /** The order of strings that sorting uses. */
  predicate AtMost(a: string, b: string) {
    a == [] || (b != [] && (a[0] < b[0] || (a[0] == b[0] && AtMost(a[1..], b[1..]))))
  }

  /** One string is at most another when it is a prefix of it or smaller at the first difference. */
  lemma {:induction false} AtMostIff(a: string, b: string)
    ensures AtMost(a, b) <==>
      a <= b || exists k :: 0 <= k < |a| && k < |b| && a[..k] == b[..k] && a[k] < b[k]
  {
    if a != [] && b != [] && a[0] == b[0] {
      var x, y := a[1..], b[1..];
      AtMostIff(x, y);
      assert a == [a[0]] + x && b == [b[0]] + y;
      if k :| 0 <= k < |x| && k < |y| && x[..k] == y[..k] && x[k] < y[k] {
        assert a[..k + 1] == [a[0]] + x[..k] && b[..k + 1] == [b[0]] + y[..k];
        assert a[k + 1] < b[k + 1];
      }
      if k :| 0 <= k < |a| && k < |b| && a[..k] == b[..k] && a[k] < b[k] {
        assert x[..k - 1] == a[..k][1..] && y[..k - 1] == b[..k][1..];
        assert x[k - 1] < y[k - 1];
      }
    } else if a != [] && b != [] {
      if a[0] < b[0] {
        assert a[..0] == b[..0];
      }
    }
  }

  lemma {:induction false} AtMostIsTotal(a: string, b: string)
    ensures AtMost(a, b) || AtMost(b, a)
    ensures AtMost(a, b) && AtMost(b, a) ==> a == b
  {
    if a != [] && b != [] && a[0] == b[0] {
      AtMostIsTotal(a[1..], b[1..]);
      assert a == [a[0]] + a[1..] && b == [b[0]] + b[1..];
    }
  }

  lemma {:induction false} AtMostIsTransitive(a: string, b: string, c: string)
    requires AtMost(a, b) && AtMost(b, c)
    ensures AtMost(a, c)
  {
    if a != [] && a[0] == b[0] == c[0] {
      AtMostIsTransitive(a[1..], b[1..], c[1..]);
    }
  }

  /** The addresses of the available grpc instances, in instance order. */
  function Addresses(instances: seq<Instance>): seq<string> {
    if instances == [] then []
    else
      (if instances[0].available && instances[0].grpc then [instances[0].address] else [])
      + Addresses(instances[1..])
  }

  lemma {:induction false} AddressIff(instances: seq<Instance>, address: string)
    ensures address in Addresses(instances) <==>
      exists i :: 0 <= i < |instances| && instances[i].available && instances[i].grpc && instances[i].address == address
  {
    if instances != [] {
      AddressIff(instances[1..], address);
      assert forall i :: 1 <= i < |instances| ==> instances[i] == instances[1..][i - 1];
    }
  }

  function Place(x: string, s: seq<string>): seq<string> {
    if s == [] || AtMost(x, s[0]) then [x] + s else [s[0]] + Place(x, s[1..])
  }

  function Sort(s: seq<string>): seq<string> {
    if s == [] then [] else Place(s[0], Sort(s[1..]))
  }

  /** Drops an element equal to the one before it. */
  function Dedup(s: seq<string>): seq<string> {
    if |s| < 2 then s else if s[0] == s[1] then Dedup(s[1..]) else [s[0]] + Dedup(s[1..])
  }

  /** None when the cluster has no available grpc instance. */
  function AvailableEndpoints(instances: seq<Instance>): Option<seq<string>> {
    var addresses := Addresses(instances);
    if addresses == [] then None else Some(Dedup(Sort(addresses)))
  }

  /** `hash` stands for the first eight bytes of a digest of the affinity. */
  function Select(available: seq<string>, affinity: string, hash: string -> nat): string
    requires available != []
  {
    available[hash(affinity) % |available|]
  }

  // ---- a sorted list without repeats is determined by its elements

  ghost predicate Ascending(s: seq<string>) {
    forall i, j :: 0 <= i < j < |s| ==> AtMost(s[i], s[j])
  }

  ghost predicate Strict(s: seq<string>) {
    forall i, j :: 0 <= i < j < |s| ==> AtMost(s[i], s[j]) && s[i] != s[j]
  }

  function Elements(s: seq<string>): set<string> {
    set x | x in s
  }

  lemma ElementsOf(s: seq<string>)
    ensures s == [] <==> Elements(s) == {}
    ensures s != [] ==> Elements(s) == {s[0]} + Elements(s[1..])
  {
    if s != [] {
      assert s == [s[0]] + s[1..];
      assert s[0] in Elements(s);
    }
  }

  /** A list with a least element in front. */
  lemma FrontKeeps(x: string, s: seq<string>)
    requires Ascending(s) && forall y :: y in s ==> AtMost(x, y)
    ensures Ascending([x] + s) && Elements([x] + s) == Elements(s) + {x}
  {
    ElementsOf([x] + s);
    assert ([x] + s)[1..] == s;
  }

  lemma FrontIsLeast(x: string, s: seq<string>)
    requires s != [] && Ascending(s) && AtMost(x, s[0])
    ensures forall y :: y in s ==> AtMost(x, y)
  {
    forall j | 0 <= j < |s|
      ensures AtMost(x, s[j])
    {
      if j > 0 {
        AtMostIsTransitive(x, s[0], s[j]);
      }
    }
  }

  lemma {:induction false} PlaceKeeps(x: string, s: seq<string>)
    requires Ascending(s)
    ensures Ascending(Place(x, s)) && Elements(Place(x, s)) == Elements(s) + {x}
  {
    if s == [] {
    } else if AtMost(x, s[0]) {
      FrontIsLeast(x, s);
      FrontKeeps(x, s);
    } else {
      AtMostIsTotal(x, s[0]);
      PlaceKeeps(x, s[1..]);
      var rest := Place(x, s[1..]);
      assert s == [s[0]] + s[1..];
      forall y | y in rest
        ensures AtMost(s[0], y)
      {
        assert y in Elements(rest);
        assert y == x || y in s[1..];
      }
      FrontKeeps(s[0], rest);
      ElementsOf(s);
    }
  }

  lemma {:induction false} SortKeeps(s: seq<string>)
    ensures Ascending(Sort(s)) && Elements(Sort(s)) == Elements(s)
  {
    if s != [] {
      SortKeeps(s[1..]);
      PlaceKeeps(s[0], Sort(s[1..]));
      assert s == [s[0]] + s[1..];
    }
  }

  lemma {:induction false} DedupKeeps(s: seq<string>)
    requires Ascending(s)
    ensures Strict(Dedup(s)) && Elements(Dedup(s)) == Elements(s)
    ensures s != [] ==> Dedup(s) != [] && Dedup(s)[0] == s[0]
  {
    if |s| >= 2 {
      DedupKeeps(s[1..]);
      assert s == [s[0]] + s[1..];
      var rest := Dedup(s[1..]);
      if s[0] != s[1] {
        forall j | 0 <= j < |rest|
          ensures AtMost(s[0], rest[j]) && s[0] != rest[j]
        {
          assert rest[j] in Elements(rest);
          assert rest[j] in s[1..];
          if rest[j] == s[0] {
            assert j > 0;
            assert AtMost(rest[0], rest[j]) && AtMost(s[0], s[1]);
            AtMostIsTotal(s[0], s[1]);
          }
        }
        ElementsOf([s[0]] + rest);
        assert ([s[0]] + rest)[1..] == rest;
      }
      ElementsOf(s);
    }
  }

  lemma {:induction false} StrictIsUnique(a: seq<string>, b: seq<string>)
    requires Strict(a) && Strict(b) && Elements(a) == Elements(b)
    ensures a == b
  {
    ElementsOf(a);
    ElementsOf(b);
    if a != [] {
      assert a[0] in Elements(b) && (b != [] ==> b[0] in Elements(a));
      AtMostIsTotal(a[0], b[0]);
      assert a == [a[0]] + a[1..] && b == [b[0]] + b[1..];
      assert a[0] == b[0];
      assert Elements(a[1..]) == Elements(a) - {a[0]};
      assert Elements(b[1..]) == Elements(b) - {b[0]};
      StrictIsUnique(a[1..], b[1..]);
    }
  }

  /** The list of endpoints, and with it every fresh choice, depends on the set of available grpc
      addresses alone: order and repetition of the instances do not matter. */
  lemma EndpointsAreCanonical(a: seq<Instance>, b: seq<Instance>)
    requires Elements(Addresses(a)) == Elements(Addresses(b))
    ensures AvailableEndpoints(a) == AvailableEndpoints(b)
  {
    AvailableAreTheAddresses(a);
    AvailableAreTheAddresses(b);
    ElementsOf(Addresses(a));
    ElementsOf(Addresses(b));
    if Addresses(a) != [] {
      StrictIsUnique(AvailableEndpoints(a).value, AvailableEndpoints(b).value);
    }
  }

  lemma AvailableAreTheAddresses(instances: seq<Instance>)
    ensures AvailableEndpoints(instances).None? <==> Addresses(instances) == []
    ensures AvailableEndpoints(instances).Some? ==>
      && AvailableEndpoints(instances).value != [] && Strict(AvailableEndpoints(instances).value)
      && Elements(AvailableEndpoints(instances).value) == Elements(Addresses(instances))
  {
    var addresses := Addresses(instances);
    SortKeeps(addresses);
    DedupKeeps(Sort(addresses));
    if addresses != [] {
      assert addresses[0] in Elements(Sort(addresses));
    }
  }

  // ---- bindings

  datatype Choice = Choice(endpoint: Option<string>, bindings: map<string, string>)

  function Choose(
      bindings: map<string, string>, instances: seq<Instance>, affinity: string, hash: string -> nat): Choice {
    match AvailableEndpoints(instances)
    case None => Choice(None, bindings)
    case Some(available) =>
      if affinity in bindings && bindings[affinity] in available then Choice(Some(bindings[affinity]), bindings)
      else if available == [] then Choice(None, bindings)
      else
        var endpoint := Select(available, affinity, hash);
        Choice(Some(endpoint), bindings[affinity := endpoint])
  }

  class EndpointBindings {
    var bindings: map<string, string>

    constructor ()
      ensures bindings == map[]
    {
      bindings := map[];
    }

    /** `endpoint_for`: fails exactly when no address is available, and then binds nothing; keeps to an endpoint
        that is bound and still available; otherwise binds the one at the hash of the affinity in the ascending
        list of those that are, without repeats. No other affinity is touched. */
    method EndpointFor(instances: seq<Instance>, affinity: string, hash: string -> nat)
      returns (endpoint: Option<string>)
      modifies this
      ensures endpoint.None? <==> Elements(Addresses(instances)) == {}
      ensures endpoint.None? ==> bindings == old(bindings)
      ensures endpoint.Some? ==>
        endpoint.value in Elements(Addresses(instances)) && bindings == old(bindings)[affinity := endpoint.value]
      ensures affinity in old(bindings) && old(bindings)[affinity] in Elements(Addresses(instances)) ==>
        endpoint == Some(old(bindings)[affinity])
      ensures
        endpoint.Some? && (affinity !in old(bindings) || old(bindings)[affinity] !in Elements(Addresses(instances))) ==>
          exists list :: Strict(list) && Elements(list) == Elements(Addresses(instances))
            && list != [] && endpoint.value == list[hash(affinity) % |list|]
      ensures Choice(endpoint, bindings) == Choose(old(bindings), instances, affinity, hash)
    {
      AvailableAreTheAddresses(instances);
      ChoiceIsAvailable(bindings, instances, affinity, hash);
      var available := AvailableEndpoints(instances);
      if available.None? {
        return None;
      }
      if affinity in bindings && bindings[affinity] in available.value {
        return Some(bindings[affinity]);
      }
      var selected := Select(available.value, affinity, hash);
      bindings := bindings[affinity := selected];
      endpoint := Some(selected);
    }
  }

  /** A choice is an available grpc address, and fails only when there is none. */
  lemma {:induction false} ChoiceIsAvailable(
      bindings: map<string, string>, instances: seq<Instance>, affinity: string, hash: string -> nat)
    ensures
      var choice := Choose(bindings, instances, affinity, hash);
      && (choice.endpoint.None? <==> Elements(Addresses(instances)) == {})
      && (choice.endpoint.Some? ==>
            && choice.endpoint.value in Elements(Addresses(instances))
            && affinity in choice.bindings && choice.bindings[affinity] == choice.endpoint.value)
  {
    AvailableAreTheAddresses(instances);
    if AvailableEndpoints(instances).Some? {
      var available := AvailableEndpoints(instances).value;
      assert available[hash(affinity) % |available|] in Elements(available);
      assert Addresses(instances)[0] in Elements(Addresses(instances));
    }
  }

  datatype Call = Call(instances: seq<Instance>, affinity: string)

  function BindingsAfter(bindings: map<string, string>, calls: seq<Call>, hash: string -> nat): map<string, string> {
    if calls == [] then bindings
    else
      var before := BindingsAfter(bindings, calls[..|calls| - 1], hash);
      Choose(before, calls[|calls| - 1].instances, calls[|calls| - 1].affinity, hash).bindings
  }

  /** Over any run of calls, of this affinity and others, a bound endpoint is returned by every call of
      its affinity for as long as it stays available. */
  lemma {:induction false} BoundEndpointStays(
      bindings: map<string, string>, calls: seq<Call>, affinity: string, hash: string -> nat)
    requires affinity in bindings
    requires forall i :: 0 <= i < |calls| && calls[i].affinity == affinity ==>
        bindings[affinity] in Elements(Addresses(calls[i].instances))
    ensures affinity in BindingsAfter(bindings, calls, hash)
        && BindingsAfter(bindings, calls, hash)[affinity] == bindings[affinity]
    ensures calls != [] && calls[|calls| - 1].affinity == affinity ==>
      Choose(BindingsAfter(bindings, calls[..|calls| - 1], hash), calls[|calls| - 1].instances, affinity, hash).endpoint
        == Some(bindings[affinity])
  {
    if calls != [] {
      var init, last := calls[..|calls| - 1], calls[|calls| - 1];
      BoundEndpointStays(bindings, init, affinity, hash);
      AvailableAreTheAddresses(last.instances);
      if last.affinity == affinity {
        assert bindings[affinity] in Elements(AvailableEndpoints(last.instances).value) by {
          assert bindings[affinity] in Elements(Addresses(last.instances));
          assert Addresses(last.instances) != [];
        }
      }
    }
  }
}
