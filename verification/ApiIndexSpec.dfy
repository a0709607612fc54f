/** What the buckets of the index hold after building it, and why gathering from them, sorting and
    dropping repeats gives the scan. */
module ApiIndexSpec {
  import opened QuotaTypes
  import opened ApiMatching
  import opened PathTries
  import opened StableSorting

  /** One API filed for one entry. */
  datatype Filed<T> = Filed(api: Api, candidate: Candidate<T>)

  datatype FallbackCandidate<T> = FallbackCandidate(order: nat, api: Api, value: T)

  function Pathless<T>(log: seq<Filed<T>>): seq<Candidate<T>> {
    if log == [] then []
    else
      var rest, last := Pathless(log[..|log| - 1]), log[|log| - 1];
      if ExactTextPath(last.api.path).AnyPath? then rest + [last.candidate] else rest
  }

  function AtPath<T>(log: seq<Filed<T>>, path: string): seq<Candidate<T>> {
    if log == [] then []
    else
      var rest, last := AtPath(log[..|log| - 1], path), log[|log| - 1];
      if ExactTextPath(last.api.path) == ExactPath(path) then rest + [last.candidate] else rest
  }

  function Fallbacks<T>(log: seq<Filed<T>>): seq<FallbackCandidate<T>> {
    if log == [] then []
    else
      var rest, last := Fallbacks(log[..|log| - 1]), log[|log| - 1];
      if ExactTextPath(last.api.path).Fallback?
      then rest + [FallbackCandidate(last.candidate.order, last.api, last.candidate.value)] else rest
  }

  /** The fallback candidates whose API matches in full. */
  function Matching<T>(s: seq<FallbackCandidate<T>>, input: ApiMatchInput, others: OtherKinds): seq<Candidate<T>> {
    if s == [] then []
    else
      var rest, last := Matching(s[..|s| - 1], input, others), s[|s| - 1];
      if ApiMatches(input, last.api, others) then rest + [Candidate(last.order, last.value)] else rest
  }

  /** What one bucket reports. */
  function Gathered<T>(log: seq<Filed<T>>, input: ApiMatchInput, others: OtherKinds): seq<Candidate<T>> {
    Pathless(log) + (if input.path.Some? then AtPath(log, input.path.value) else [])
    + Matching(Fallbacks(log), input, others)
  }

  ghost predicate Reports<T>(log: seq<Filed<T>>, c: Candidate<T>, input: ApiMatchInput, others: OtherKinds) {
    exists k :: 0 <= k < |log| && log[k].candidate == c && PathAccepted(input, log[k].api, others)
  }

  lemma {:induction false} GatheredIff<T>(log: seq<Filed<T>>, c: Candidate<T>, input: ApiMatchInput, others: OtherKinds)
    ensures c in Gathered(log, input, others) <==> Reports(log, c, input, others)
  {
    if log != [] {
      var init, last := log[..|log| - 1], log[|log| - 1];
      GatheredIff(init, c, input, others);
      assert forall k :: 0 <= k < |init| ==> init[k] == log[k];
      assert Reports(log, c, input, others) <==>
        Reports(init, c, input, others) || (last.candidate == c && PathAccepted(input, last.api, others));
      if ExactTextPath(last.api.path).Fallback? {
        var added := FallbackCandidate(last.candidate.order, last.api, last.candidate.value);
        assert (Fallbacks(init) + [added])[..|Fallbacks(init)|] == Fallbacks(init);
        assert Candidate(added.order, added.value) == last.candidate;
      }
    }
  }

  /** The APIs of one entry that belong in bucket `bucket`, in order. */
  function FiledFrom<T>(bucket: Option<string>, apis: seq<Api>, candidate: Candidate<T>): seq<Filed<T>> {
    if apis == [] then []
    else
      var rest, last := FiledFrom(bucket, apis[..|apis| - 1], candidate), apis[|apis| - 1];
      if BucketOf(last) == bucket then rest + [Filed(last, candidate)] else rest
  }

  /** Everything filed in bucket `bucket` for these entries, in order. */
  function FiledIn<T>(bucket: Option<string>, entries: seq<Entry<T>>): seq<Filed<T>> {
    if entries == [] then []
    else
      var last := entries[|entries| - 1];
      FiledIn(bucket, entries[..|entries| - 1]) + FiledFrom(bucket, last.apis, Candidate(|entries| - 1, last.value))
  }

  /** What a bucket holds once the entries `before` and the first APIs of the next one are filed. */
  function PartlyFiled<T>(
      bucket: Option<string>, before: seq<Entry<T>>, apis: seq<Api>, candidate: Candidate<T>): seq<Filed<T>> {
    FiledIn(bucket, before) + FiledFrom(bucket, apis, candidate)
  }

  function FiledNow<T>(bucket: Option<string>, api: Api, candidate: Candidate<T>): seq<Filed<T>> {
    if BucketOf(api) == bucket then [Filed(api, candidate)] else []
  }

  lemma NextFiled<T>(bucket: Option<string>, before: seq<Entry<T>>, apis: seq<Api>, api: Api, candidate: Candidate<T>)
    ensures PartlyFiled(bucket, before, apis + [api], candidate)
         == PartlyFiled(bucket, before, apis, candidate) + FiledNow(bucket, api, candidate)
  {
    assert (apis + [api])[..|apis|] == apis;
  }

  lemma AllFiled<T>(bucket: Option<string>, before: seq<Entry<T>>, entry: Entry<T>)
    ensures PartlyFiled(bucket, before, [], Candidate(|before|, entry.value)) == FiledIn(bucket, before)
    ensures PartlyFiled(bucket, before, entry.apis, Candidate(|before|, entry.value))
        == FiledIn(bucket, before + [entry])
  {
    assert (before + [entry])[..|before|] == before;
  }

  ghost function Prefix<T>(s: seq<T>, n: nat): (prefix: seq<T>)
    requires n <= |s|
    ensures |prefix| == n
    ensures n == |s| ==> prefix == s
    ensures n < |s| ==> prefix + [s[n]] == s[..n + 1]
  {
    s[..n]
  }

  function MatchAlls<T>(entries: seq<Entry<T>>): seq<Candidate<T>> {
    if entries == [] then []
    else
      var rest, last := MatchAlls(entries[..|entries| - 1]), entries[|entries| - 1];
      if last.apis == [] then rest + [Candidate(|entries| - 1, last.value)] else rest
  }

  lemma {:induction false} MatchAllsIff<T>(entries: seq<Entry<T>>, c: Candidate<T>)
    ensures c in MatchAlls(entries) <==>
      c.order < |entries| && c.value == entries[c.order].value && entries[c.order].apis == []
  {
    if entries != [] {
      MatchAllsIff(entries[..|entries| - 1], c);
    }
  }

  lemma {:induction false} FiledFromIff<T>(bucket: Option<string>, apis: seq<Api>, candidate: Candidate<T>, x: Filed<T>)
    ensures x in FiledFrom(bucket, apis, candidate) <==>
      x.candidate == candidate && x.api in apis && BucketOf(x.api) == bucket
  {
    if apis != [] {
      FiledFromIff(bucket, apis[..|apis| - 1], candidate, x);
      assert apis == apis[..|apis| - 1] + [apis[|apis| - 1]];
    }
  }

  lemma {:induction false} FiledInIff<T>(bucket: Option<string>, entries: seq<Entry<T>>, x: Filed<T>)
    ensures x in FiledIn(bucket, entries) <==>
      && x.candidate.order < |entries| && x.candidate.value == entries[x.candidate.order].value
      && x.api in entries[x.candidate.order].apis && BucketOf(x.api) == bucket
  {
    if entries != [] {
      var n, last := |entries| - 1, entries[|entries| - 1];
      FiledInIff(bucket, entries[..n], x);
      FiledFromIff(bucket, last.apis, Candidate(n, last.value), x);
    }
  }

  /** Everything gathered for a request, before sorting. */
  function Collected<T>(entries: seq<Entry<T>>, input: ApiMatchInput, others: OtherKinds): seq<Candidate<T>> {
    MatchAlls(entries) + Gathered(FiledIn(None, entries), input, others)
    + (if input.verb.Some? then Gathered(FiledIn(input.verb, entries), input, others) else [])
  }

  lemma ReportsIff<T>(
      entries: seq<Entry<T>>, c: Candidate<T>, bucket: Option<string>, input: ApiMatchInput, others: OtherKinds)
    ensures Reports(FiledIn(bucket, entries), c, input, others) <==>
      && c.order < |entries| && c.value == entries[c.order].value
      && exists api :: api in entries[c.order].apis && BucketOf(api) == bucket && PathAccepted(input, api, others)
  {
    var log := FiledIn(bucket, entries);
    if Reports(log, c, input, others) {
      var k :| 0 <= k < |log| && log[k].candidate == c && PathAccepted(input, log[k].api, others);
      FiledInIff(bucket, entries, log[k]);
    }
    if c.order < |entries| && c.value == entries[c.order].value {
      forall api | api in entries[c.order].apis && BucketOf(api) == bucket && PathAccepted(input, api, others)
        ensures Reports(log, c, input, others)
      {
        FiledInIff(bucket, entries, Filed(api, c));
        assert Filed(api, c) in log;
        var k :| 0 <= k < |log| && log[k] == Filed(api, c);
        assert log[k].candidate == c && PathAccepted(input, log[k].api, others);
      }
    }
  }

  /** Exactly the entries the index accepts are gathered, under their own places and values. */
  lemma CollectedIff<T>(entries: seq<Entry<T>>, c: Candidate<T>, input: ApiMatchInput, others: OtherKinds)
    ensures c in Collected(entries, input, others) <==>
      c.order < |entries| && c.value == entries[c.order].value && IndexHit(entries[c.order], input, others)
  {
    MatchAllsIff(entries, c);
    GatheredIff(FiledIn(None, entries), c, input, others);
    ReportsIff(entries, c, None, input, others);
    GatheredIff(FiledIn(input.verb, entries), c, input, others);
    ReportsIff(entries, c, input.verb, input, others);
    if c.order < |entries| {
      var apis := entries[c.order].apis;
      forall api | api in apis
        ensures IndexAccepts(input, api, others) <==>
          (BucketOf(api) == None || (input.verb.Some? && BucketOf(api) == input.verb))
            && PathAccepted(input, api, others)
      {
      }
      if IndexHit(entries[c.order], input, others) && apis != [] {
        var i :| 0 <= i < |apis| && IndexAccepts(input, apis[i], others);
        assert apis[i] in apis;
      }
    }
  }

  function OrderKey<T>(): Candidate<T> -> int {
    (c: Candidate<T>) => c.order
  }

  /** The candidates of a request in entry order; repeats still there. */
  function Ranked<T>(entries: seq<Entry<T>>, input: ApiMatchInput, others: OtherKinds): seq<Candidate<T>> {
    SortBy(Collected(entries, input, others), OrderKey())
  }

  lemma RankedIff<T>(entries: seq<Entry<T>>, input: ApiMatchInput, others: OtherKinds, c: Candidate<T>)
    ensures c in Ranked(entries, input, others) <==>
      c.order < |entries| && c.value == entries[c.order].value && IndexHit(entries[c.order], input, others)
  {
    var gathered := Collected(entries, input, others);
    SortByIsSorted(gathered, OrderKey());
    assert c in Ranked(entries, input, others) <==> c in multiset(Ranked(entries, input, others));
    assert c in gathered <==> c in multiset(gathered);
    CollectedIff(entries, c, input, others);
  }

  lemma RankedIsSorted<T>(entries: seq<Entry<T>>, input: ApiMatchInput, others: OtherKinds, i: nat, j: nat)
    requires i <= j < |Ranked(entries, input, others)|
    ensures Ranked(entries, input, others)[i].order <= Ranked(entries, input, others)[j].order
  {
    var ranked := Ranked(entries, input, others);
    SortByIsSorted(Collected(entries, input, others), OrderKey());
    assert i < j ==> OrderKey()(ranked[i]) <= OrderKey()(ranked[j]);
  }

  lemma {:induction false} ScanSkips<T>(entries: seq<Entry<T>>, hit: Entry<T> -> bool, from: nat, to: nat)
    requires from <= to <= |entries|
    requires forall k :: from <= k < to ==> !hit(entries[k])
    ensures Scan(entries[..to], hit) == Scan(entries[..from], hit)
  {
    if from < to {
      ScanSkips(entries, hit, from, to - 1);
      assert entries[..to][..to - 1] == entries[..to - 1];
    }
  }

  /** The step of the pass that drops repeats: `done` entries are settled by the first `i` ranked
      candidates; the next candidate is a repeat of the last of them or the next hit after them. */
  lemma NextRanked<T>(entries: seq<Entry<T>>, input: ApiMatchInput, others: OtherKinds, i: nat, done: nat)
    requires i < |Ranked(entries, input, others)| && done <= |entries|
    requires forall k :: 0 <= k < i ==> Ranked(entries, input, others)[k].order < done
    requires forall k :: i <= k < |Ranked(entries, input, others)| ==>
        done <= Ranked(entries, input, others)[k].order + 1
    ensures
      var c := Ranked(entries, input, others)[i];
      && c.order < |entries|
      && (forall k :: i < k < |Ranked(entries, input, others)| ==> c.order <= Ranked(entries, input, others)[k].order)
      && (done <= c.order ==>
            IndexScan(entries[..c.order + 1], input, others) == IndexScan(entries[..done], input, others) + [c.value])
  {
    var ranked, c := Ranked(entries, input, others), Ranked(entries, input, others)[i];
    assert c in ranked;
    RankedIff(entries, input, others, c);
    forall k | i < k < |ranked|
      ensures c.order <= ranked[k].order
    {
      RankedIsSorted(entries, input, others, i, k);
    }
    if done <= c.order {
      forall k | done <= k < c.order
        ensures !IndexHit(entries[k], input, others)
      {
        Unranked(entries, input, others, k, i);
      }
      ScanSkips(entries, (entry: Entry<T>) => IndexHit(entry, input, others), done, c.order);
      assert entries[..c.order + 1][..c.order] == entries[..c.order];
    }
  }

  /** No hit lies between the settled entries and the next ranked candidate. */
  lemma Unranked<T>(entries: seq<Entry<T>>, input: ApiMatchInput, others: OtherKinds, k: nat, i: nat)
    requires k < |entries| && i <= |Ranked(entries, input, others)|
    requires forall j :: 0 <= j < i ==> Ranked(entries, input, others)[j].order != k
    requires i < |Ranked(entries, input, others)| ==> k < Ranked(entries, input, others)[i].order
    ensures !IndexHit(entries[k], input, others)
  {
    var ranked := Ranked(entries, input, others);
    RankedIff(entries, input, others, Candidate(k, entries[k].value));
    if IndexHit(entries[k], input, others) {
      var j :| 0 <= j < |ranked| && ranked[j] == Candidate(k, entries[k].value);
      if i <= j {
        RankedIsSorted(entries, input, others, i, j);
      }
      assert false;
    }
  }

  /** How far the pass that drops repeats has come: the first `i` candidates settle the first `done`
      entries, and `seen` holds the last of these. */
  ghost predicate Passed<T>(
      entries: seq<Entry<T>>, input: ApiMatchInput, others: OtherKinds, i: nat, done: nat, seen: set<nat>,
      values: seq<T>) {
    var ranked := Ranked(entries, input, others);
    && i <= |ranked| && done <= |entries| && values == IndexScan(entries[..done], input, others)
    && (forall k :: 0 <= k < i ==> ranked[k].order < done)
    && (forall k :: i <= k < |ranked| ==> done <= ranked[k].order + 1)
    && (forall order :: order in seen ==> order < done)
    && (done > 0 ==> done - 1 in seen)
  }

  lemma PassStarts<T>(entries: seq<Entry<T>>, input: ApiMatchInput, others: OtherKinds)
    ensures Passed(entries, input, others, 0, 0, {}, [])
  {
    assert entries[..0] == [];
  }

  lemma PassGoesOn<T>(
      entries: seq<Entry<T>>, input: ApiMatchInput, others: OtherKinds, i: nat, done: nat, seen: set<nat>,
      values: seq<T>)
    requires i < |Ranked(entries, input, others)| && Passed(entries, input, others, i, done, seen, values)
    ensures
      var c := Ranked(entries, input, others)[i];
      if c.order in seen then Passed(entries, input, others, i + 1, done, seen, values)
      else Passed(entries, input, others, i + 1, c.order + 1, seen + {c.order}, values + [c.value])
  {
    NextRanked(entries, input, others, i, done);
  }

  lemma PassEnds<T>(
      entries: seq<Entry<T>>, input: ApiMatchInput, others: OtherKinds, done: nat, seen: set<nat>, values: seq<T>)
    requires Passed(entries, input, others, |Ranked(entries, input, others)|, done, seen, values)
    ensures values == IndexScan(entries, input, others)
  {
    forall k | done <= k < |entries|
      ensures !IndexHit(entries[k], input, others)
    {
      Unranked(entries, input, others, k, |Ranked(entries, input, others)|);
    }
    ScanSkips(entries, (entry: Entry<T>) => IndexHit(entry, input, others), done, |entries|);
    assert entries[..|entries|] == entries;
  }
}
