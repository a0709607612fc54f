/** The API match index: buckets by method, each with a trie of exact paths and a list of paths kept
    for the full match. */
module ApiIndexes {
  import opened QuotaTypes
  import opened ApiMatching
  import opened PathTries
  import opened StableSorting
  import opened ApiIndexSpec

  class MethodApiIndex<T> {
    var pathless: seq<Candidate<T>>
    const exactPaths: PathTrie<T>
    var fallbackPaths: seq<FallbackCandidate<T>>
    /** The APIs filed here, in order. */
    ghost var log: seq<Filed<T>>

    ghost var Repr: set<object>

    ghost predicate Valid()
      reads this, Repr
    {
      && this in Repr && exactPaths in Repr && exactPaths.Repr <= Repr - {this}
      && exactPaths.Valid()
      && pathless == Pathless(log)
      && (forall path :: exactPaths.Contents(path) == AtPath(log, path))
      && fallbackPaths == Fallbacks(log)
    }

    constructor ()
      ensures Valid() && fresh(Repr) && log == []
    {
      pathless, fallbackPaths, log := [], [], [];
      exactPaths := new PathTrie();
      new;
      Repr := {this} + exactPaths.Repr;
    }

    method InsertPathless(ghost api: Api, candidate: Candidate<T>)
      requires Valid() && ExactTextPath(api.path).AnyPath?
      modifies Repr
      ensures Valid() && fresh(Repr - old(Repr)) && log == old(log) + [Filed(api, candidate)]
    {
      pathless := pathless + [candidate];
      log := log + [Filed(api, candidate)];
      assert log[..|log| - 1] == old(log);
    }

    method InsertExactPath(ghost api: Api, path: string, candidate: Candidate<T>)
      requires Valid() && ExactTextPath(api.path) == ExactPath(path)
      modifies Repr
      ensures Valid() && fresh(Repr - old(Repr)) && log == old(log) + [Filed(api, candidate)]
    {
      exactPaths.Insert(path, candidate);
      Repr := Repr + exactPaths.Repr;
      log := log + [Filed(api, candidate)];
      assert log[..|log| - 1] == old(log);
    }

    method InsertFallbackPath(api: Api, candidate: Candidate<T>)
      requires Valid() && ExactTextPath(api.path).Fallback?
      modifies Repr
      ensures Valid() && fresh(Repr - old(Repr)) && log == old(log) + [Filed(api, candidate)]
    {
      fallbackPaths := fallbackPaths + [FallbackCandidate(candidate.order, api, candidate.value)];
      log := log + [Filed(api, candidate)];
      assert log[..|log| - 1] == old(log);
    }

    /** Files an API by the kind of its path. */
    method File(api: Api, candidate: Candidate<T>)
      requires Valid()
      modifies Repr
      ensures Valid() && fresh(Repr - old(Repr)) && log == old(log) + [Filed(api, candidate)]
    {
      match ExactTextPath(api.path) {
        case AnyPath => InsertPathless(api, candidate);
        case ExactPath(path) => InsertExactPath(api, path, candidate);
        case Fallback => InsertFallbackPath(api, candidate);
      }
    }

    /** What this bucket adds to the candidates of a request. */
    method Candidates(
        input: ApiMatchInput, others: OtherKinds, output: seq<Candidate<T>>) returns (extended: seq<Candidate<T>>)
      requires Valid()
      ensures extended == output + Gathered(log, input, others)
    {
      extended := output + pathless;
      if input.path.Some? {
        var found := exactPaths.ExactCandidates(input.path.value);
        extended := extended + found;
      }
      extended := extended + Matching(fallbackPaths, input, others);
    }
  }

  class ApiMatchIndex<T> {
    var matchAll: seq<Candidate<T>>
    const wildcardMethod: MethodApiIndex<T>
    var methods: map<string, MethodApiIndex<T>>
    ghost var footprint: set<object>

    /** The buckets share no object. */
    ghost predicate Shape()
      reads this, footprint
    {
      && this in footprint
      && wildcardMethod in footprint && wildcardMethod.Repr <= footprint && this !in wildcardMethod.Repr
      && (forall m :: m in methods ==>
          methods[m] in footprint && methods[m].Repr <= footprint && this !in methods[m].Repr)
      && (forall m :: m in methods ==> methods[m].Repr !! wildcardMethod.Repr)
      && (forall m, n :: m in methods && n in methods && m != n ==> methods[m].Repr !! methods[n].Repr)
    }

    ghost predicate Valid()
      reads this, footprint
    {
      Shape() && wildcardMethod.Valid() && forall m :: m in methods ==> methods[m].Valid()
    }

    /** What is filed under a method. */
    ghost function Log(m: string): seq<Filed<T>>
      requires Valid()
      reads this, footprint
    {
      if m in methods then methods[m].log else []
    }

    /** Nothing but this object has changed, and in it one more bucket is registered. */
    twostate predicate OnlyAdded(index: MethodApiIndex<T>)
      reads this, footprint, index, index.Repr
    {
      && old(Valid()) && old(index.Valid()) && old(index.Repr) !! old(footprint) && old(index.log) == []
      && (exists verb :: verb !in old(methods) && methods == old(methods)[verb := index])
      && footprint == old(footprint) + old(index.Repr)
      && (forall o :: o in footprint && o != this ==> unchanged(o))
    }

    twostate lemma AddedKeepsShape(index: MethodApiIndex<T>)
      requires OnlyAdded(index)
      ensures Shape()
    {
    }

    twostate lemma AddedKeepsOthers(index: MethodApiIndex<T>)
      requires OnlyAdded(index)
      ensures forall m :: m in old(methods) ==>
        m in methods && methods[m] == old(methods[m]) && methods[m].Valid() && methods[m].log == old(methods[m].log)
    {
    }

    twostate lemma AddedIsValid(index: MethodApiIndex<T>)
      requires OnlyAdded(index)
      ensures index.Valid() && index.log == []
    {
    }

    twostate lemma AddedKeepsWildcard(index: MethodApiIndex<T>)
      requires OnlyAdded(index)
      ensures wildcardMethod.Valid() && wildcardMethod.log == old(wildcardMethod.log)
    {
    }

    /** Registers an empty bucket of its own objects under a new method. */
    method AddBucket(verb: string, index: MethodApiIndex<T>)
      requires Valid() && verb !in methods
      requires index.Valid() && index.Repr !! footprint && index.log == []
      modifies this
      ensures Valid() && footprint == old(footprint) + index.Repr && matchAll == old(matchAll)
      ensures methods == old(methods)[verb := index]
      ensures forall m :: Log(m) == old(Log(m))
    {
      methods := methods[verb := index];
      footprint := footprint + index.Repr;
      AddedKeepsShape(index);
      AddedKeepsWildcard(index);
      AddedKeepsOthers(index);
      AddedIsValid(index);
    }

    /** The bucket of a method, created when missing. */
    method MethodBucket(verb: string) returns (index: MethodApiIndex<T>)
      requires Valid()
      modifies this
      ensures Valid() && fresh(footprint - old(footprint)) && old(footprint) <= footprint && matchAll == old(matchAll)
      ensures verb in methods && methods[verb] == index
      ensures wildcardMethod.log == old(wildcardMethod.log)
      ensures forall m :: Log(m) == old(Log(m))
    {
      if verb !in methods {
        index := new MethodApiIndex();
        AddBucket(verb, index);
      } else {
        index := methods[verb];
      }
    }

    /** Filing in one bucket has left the rest of the index alone. */
    twostate predicate OnlyGrew(index: MethodApiIndex<T>)
      reads this, footprint, index, index.Repr
    {
      && old(Valid())
      && (index == wildcardMethod || index in methods.Values)
      && methods == old(methods) && matchAll == old(matchAll) && footprint == old(footprint) + index.Repr
      && index.Valid() && fresh(index.Repr - old(index.Repr)) && this !in index.Repr
      && (forall o :: o in old(footprint) && o != this && o !in old(index.Repr) ==> unchanged(o))
    }

    twostate lemma GrowthKeepsShape(index: MethodApiIndex<T>)
      requires OnlyGrew(index)
      ensures Shape()
    {
    }

    twostate lemma GrowthKeepsOthers(index: MethodApiIndex<T>)
      requires OnlyGrew(index) && Shape()
      ensures forall m :: m in methods && methods[m] != index ==>
          methods[m].Valid() && methods[m].log == old(methods[m].log)
    {
    }

    twostate lemma GrowthKeepsWildcard(index: MethodApiIndex<T>)
      requires OnlyGrew(index) && Shape()
      ensures wildcardMethod != index ==> wildcardMethod.Valid() && wildcardMethod.log == old(wildcardMethod.log)
    {
    }

    /** Files in the bucket of a method. */
    method FileUnder(verb: string, api: Api, candidate: Candidate<T>)
      requires Valid() && verb in methods
      modifies footprint
      ensures Valid() && fresh(footprint - old(footprint)) && matchAll == old(matchAll)
      ensures wildcardMethod.log == old(wildcardMethod.log)
      ensures forall m :: Log(m) == old(Log(m)) + if m == verb then [Filed(api, candidate)] else []
    {
      var index := methods[verb];
      assert index in methods.Values;
      index.File(api, candidate);
      footprint := footprint + index.Repr;
      GrowthKeepsShape(index);
      GrowthKeepsOthers(index);
      GrowthKeepsWildcard(index);
    }

    /** Files in the bucket of every method. */
    method FileForAll(api: Api, candidate: Candidate<T>)
      requires Valid()
      modifies footprint
      ensures Valid() && fresh(footprint - old(footprint)) && matchAll == old(matchAll)
      ensures wildcardMethod.log == old(wildcardMethod.log) + [Filed(api, candidate)]
      ensures forall m :: Log(m) == old(Log(m))
    {
      wildcardMethod.File(api, candidate);
      footprint := footprint + wildcardMethod.Repr;
      GrowthKeepsShape(wildcardMethod);
      GrowthKeepsOthers(wildcardMethod);
    }

    /** Files in the bucket of one method, which may be new. */
    method FileForOne(api: Api, candidate: Candidate<T>)
      requires Valid()
      modifies footprint
      ensures Valid() && fresh(footprint - old(footprint)) && matchAll == old(matchAll)
      ensures wildcardMethod.log == old(wildcardMethod.log)
      ensures forall m :: Log(m) == old(Log(m)) + if m == api.verb then [Filed(api, candidate)] else []
    {
      var index := MethodBucket(api.verb);
      FileUnder(api.verb, api, candidate);
    }

    method InsertApi(api: Api, candidate: Candidate<T>)
      requires Valid()
      modifies footprint
      ensures Valid() && fresh(footprint - old(footprint)) && matchAll == old(matchAll)
      ensures wildcardMethod.log == old(wildcardMethod.log) + FiledNow(None, api, candidate)
      ensures forall m :: Log(m) == old(Log(m)) + FiledNow(Some(m), api, candidate)
    {
      if api.verb == "" || api.verb == WILDCARD {
        FileForAll(api, candidate);
      } else {
        FileForOne(api, candidate);
      }
    }

    /** The index was built from these entries. */
    ghost predicate Indexes(entries: seq<Entry<T>>)
      reads this, footprint
    {
      && Valid() && matchAll == MatchAlls(entries)
      && wildcardMethod.log == FiledIn(None, entries)
      && forall m :: Log(m) == FiledIn(Some(m), entries)
    }

    /** The index holds the entries `before` and these APIs of the next one. */
    ghost predicate IndexesPartly(before: seq<Entry<T>>, apis: seq<Api>, candidate: Candidate<T>)
      reads this, footprint
    {
      && Valid() && matchAll == MatchAlls(before)
      && wildcardMethod.log == PartlyFiled(None, before, apis, candidate)
      && forall m :: Log(m) == PartlyFiled(Some(m), before, apis, candidate)
    }

    method InsertNext(ghost before: seq<Entry<T>>, ghost apis: seq<Api>, api: Api, candidate: Candidate<T>)
      requires IndexesPartly(before, apis, candidate)
      modifies footprint
      ensures IndexesPartly(before, apis + [api], candidate) && fresh(footprint - old(footprint))
    {
      InsertApi(api, candidate);
      NextFiled(None, before, apis, api, candidate);
      forall m
        ensures Log(m) == PartlyFiled(Some(m), before, apis + [api], candidate)
      {
        NextFiled(Some(m), before, apis, api, candidate);
      }
    }

    /** The loop over the APIs of one entry. */
    method InsertApis(ghost before: seq<Entry<T>>, apis: seq<Api>, candidate: Candidate<T>)
      requires IndexesPartly(before, [], candidate)
      modifies footprint
      ensures IndexesPartly(before, apis, candidate) && fresh(footprint - old(footprint))
    {
      for i := 0 to |apis|
        invariant IndexesPartly(before, Prefix(apis, i), candidate) && fresh(footprint - old(footprint))
      {
        InsertNext(before, Prefix(apis, i), apis[i], candidate);
      }
    }

    lemma EntryBegins(before: seq<Entry<T>>, entry: Entry<T>)
      requires Indexes(before)
      ensures IndexesPartly(before, [], Candidate(|before|, entry.value))
    {
      AllFiled(None, before, entry);
      forall m
        ensures Log(m) == PartlyFiled(Some(m), before, [], Candidate(|before|, entry.value))
      {
        AllFiled(Some(m), before, entry);
      }
    }

    lemma EntryEnds(before: seq<Entry<T>>, entry: Entry<T>)
      requires IndexesPartly(before, entry.apis, Candidate(|before|, entry.value)) && entry.apis != []
      ensures Indexes(before + [entry])
    {
      AllFiled(None, before, entry);
      forall m
        ensures Log(m) == FiledIn(Some(m), before + [entry])
      {
        AllFiled(Some(m), before, entry);
      }
      assert (before + [entry])[..|before|] == before;
    }

    method PushMatchAll(candidate: Candidate<T>)
      requires Valid()
      modifies this
      ensures Valid() && footprint == old(footprint) && matchAll == old(matchAll) + [candidate]
      ensures methods == old(methods) && forall m :: Log(m) == old(Log(m))
    {
      matchAll := matchAll + [candidate];
    }

    method AddMatchAll(ghost before: seq<Entry<T>>, entry: Entry<T>, order: nat)
      requires Indexes(before) && order == |before| && entry.apis == []
      modifies this
      ensures Indexes(before + [entry]) && footprint == old(footprint)
    {
      PushMatchAll(Candidate(order, entry.value));
      assert (before + [entry])[..order] == before;
      assert forall bucket: Option<string> :: FiledIn(bucket, before + [entry]) == FiledIn(bucket, before);
    }

    /** One turn of the constructor's loop. */
    method AddEntry(ghost before: seq<Entry<T>>, entry: Entry<T>, order: nat)
      requires Indexes(before) && order == |before|
      modifies footprint
      ensures Indexes(before + [entry]) && fresh(footprint - old(footprint))
    {
      if entry.apis == [] {
        AddMatchAll(before, entry, order);
      } else {
        EntryBegins(before, entry);
        InsertApis(before, entry.apis, Candidate(order, entry.value));
        EntryEnds(before, entry);
      }
    }

    lemma NothingIndexed()
      requires Valid() && matchAll == [] && methods == map[] && wildcardMethod.log == []
      ensures Indexes([])
    {
    }

    /** The loop over the entries. */
    method AddEntries(entries: seq<Entry<T>>)
      requires Indexes([])
      modifies footprint
      ensures Indexes(entries) && fresh(footprint - old(footprint))
    {
      for order := 0 to |entries|
        invariant Indexes(Prefix(entries, order)) && fresh(footprint - old(footprint))
      {
        AddEntry(Prefix(entries, order), entries[order], order);
      }
    }

    /** Fills an index that holds nothing. */
    method Fill(entries: seq<Entry<T>>)
      requires matchAll == [] && methods == map[] && footprint == {this} + wildcardMethod.Repr
      requires wildcardMethod.Valid() && this !in wildcardMethod.Repr && wildcardMethod.log == []
      modifies footprint
      ensures Indexes(entries) && fresh(footprint - old(footprint))
    {
      assert Shape();
      NothingIndexed();
      AddEntries(entries);
    }

    /** Indexes the entries in the order given. */
    constructor (entries: seq<Entry<T>>)
      ensures Indexes(entries) && fresh(footprint)
    {
      matchAll, methods := [], map[];
      wildcardMethod := new MethodApiIndex();
      new;
      footprint := {this} + wildcardMethod.Repr;
      assert fresh(footprint);
      Fill(entries);
    }

    /** The answer for a request is the scan of the indexed entries. */
    method Candidates(ghost entries: seq<Entry<T>>, input: ApiMatchInput, others: OtherKinds) returns (values: seq<T>)
      requires Indexes(entries)
      ensures values == IndexScan(entries, input, others)
    {
      var found := wildcardMethod.Candidates(input, others, matchAll);
      if input.verb.Some? {
        assert Log(input.verb.value) == FiledIn(input.verb, entries);
        if input.verb.value in methods {
          found := methods[input.verb.value].Candidates(input, others, found);
        }
      }
      assert found == Collected(entries, input, others);
      values := DropRepeats(entries, input, others, SortBy(found, OrderKey()));
    }
  }

  /** Builds an index and asks it once, as every user of the index does. */
  method IndexedCandidates<T>(entries: seq<Entry<T>>, input: ApiMatchInput, others: OtherKinds) returns (values: seq<T>)
    ensures values == IndexScan(entries, input, others)
  {
    var index := new ApiMatchIndex(entries);
    values := index.Candidates(entries, input, others);
  }

  /** One value per entry, in the order of the ranked candidates. */
  method DropRepeats<T>(ghost entries: seq<Entry<T>>, ghost input: ApiMatchInput, ghost others: OtherKinds,
                        ranked: seq<Candidate<T>>) returns (values: seq<T>)
    requires ranked == Ranked(entries, input, others)
    ensures values == IndexScan(entries, input, others)
  {
    values := [];
    var seen: set<nat> := {};
    ghost var done: nat := 0;
    PassStarts(entries, input, others);
    for i := 0 to |ranked|
      invariant Passed(entries, input, others, i, done, seen, values)
    {
      PassGoesOn(entries, input, others, i, done, seen, values);
      if ranked[i].order !in seen {
        seen := seen + {ranked[i].order};
        values := values + [ranked[i].value];
        done := ranked[i].order + 1;
      }
    }
    PassEnds(entries, input, others, done, seen, values);
  }
}
