/** Matching a request against the APIs of a rule, entry by entry; and what the index of
    `ApiIndexes` accepts instead. */
module ApiMatching {
  import opened QuotaTypes

  datatype MatchKind = Exact | NotEquals | Regex | In | NotIn | Range
  datatype ValueKind = Text | Parameter
  datatype MatchString = MatchString(kind: MatchKind, value: string, valueKind: ValueKind)

  /** An API of a rule; `verb` is its method. */
  datatype Api = Api(verb: string, path: Option<MatchString>)
  datatype ApiMatchInput = ApiMatchInput(verb: Option<string>, path: Option<string>)
  datatype Entry<T> = Entry(value: T, apis: seq<Api>)

  /** How every kind of pattern but Exact compares with a value; any function will do. */
  type OtherKinds = (MatchString, string) -> bool

  const WILDCARD: string := "*"

  predicate MatchLabelValue(rule: MatchString, actual: string, others: OtherKinds) {
    rule.value == "*" || (if rule.kind == Exact then rule.value == actual else others(rule, actual))
  }

  /** The bucket of an API: None is the bucket of every method. */
  function BucketOf(api: Api): Option<string> {
    if api.verb == "" || api.verb == WILDCARD then None else Some(api.verb)
  }

  predicate VerbMatches(input: ApiMatchInput, api: Api) {
    api.verb == "" || api.verb == "*" || input.verb == Some(api.verb)
  }

  predicate ApiMatches(input: ApiMatchInput, api: Api, others: OtherKinds) {
    && VerbMatches(input, api)
    && (api.path.Some? ==> input.path.Some? && MatchLabelValue(api.path.value, input.path.value, others))
  }

  datatype PathIndexKind = AnyPath | ExactPath(path: string) | Fallback

  function ExactTextPath(path: Option<MatchString>): PathIndexKind {
    match path
    case None => AnyPath
    case Some(rule) => if rule.kind == Exact && rule.valueKind == Text then ExactPath(rule.value) else Fallback
  }

  /** Whether a bucket reports an API filed in it. */
  predicate PathAccepted(input: ApiMatchInput, api: Api, others: OtherKinds) {
    match ExactTextPath(api.path)
    case AnyPath => true
    case ExactPath(path) => input.path == Some(path)
    case Fallback => ApiMatches(input, api, others)
  }

  predicate IndexAccepts(input: ApiMatchInput, api: Api, others: OtherKinds) {
    VerbMatches(input, api) && PathAccepted(input, api, others)
  }

  /** The plain reading of an entry: no API at all, or one that matches. */
  predicate PlainHit<T>(entry: Entry<T>, input: ApiMatchInput, others: OtherKinds) {
    entry.apis == [] || exists i :: 0 <= i < |entry.apis| && ApiMatches(input, entry.apis[i], others)
  }

  predicate IndexHit<T>(entry: Entry<T>, input: ApiMatchInput, others: OtherKinds) {
    entry.apis == [] || exists i :: 0 <= i < |entry.apis| && IndexAccepts(input, entry.apis[i], others)
  }

  /** The values of the entries that `hit` accepts, in entry order, each entry once. */
  function Scan<T>(entries: seq<Entry<T>>, hit: Entry<T> -> bool): seq<T> {
    if entries == [] then []
    else
      var rest := Scan(entries[..|entries| - 1], hit);
      if hit(entries[|entries| - 1]) then rest + [entries[|entries| - 1].value] else rest
  }

  function PlainScan<T>(entries: seq<Entry<T>>, input: ApiMatchInput, others: OtherKinds): seq<T> {
    Scan(entries, (entry: Entry<T>) => PlainHit(entry, input, others))
  }

  function IndexScan<T>(entries: seq<Entry<T>>, input: ApiMatchInput, others: OtherKinds): seq<T> {
    Scan(entries, (entry: Entry<T>) => IndexHit(entry, input, others))
  }

  /** A text path equal to the wildcard: the plain scan takes it for any path, the index for a path
      of one star. */
  predicate StarPath(api: Api) {
    api.path.Some? && api.path.value.kind == Exact && api.path.value.valueKind == Text && api.path.value.value == "*"
  }

  /** API by API, the index differs from the plain reading for star paths alone. */
  lemma IndexAcceptsIff(input: ApiMatchInput, api: Api, others: OtherKinds)
    ensures IndexAccepts(input, api, others)
         <==> ApiMatches(input, api, others) && !(StarPath(api) && input.path != Some(WILDCARD))
  {
    if api.path.Some? && ExactTextPath(api.path).ExactPath? && input.path.Some? {
      assert api.path.value.value == WILDCARD || api.path.value.kind == Exact;
    }
  }

  lemma {:induction false} NarrowerScan<T>(entries: seq<Entry<T>>, narrow: Entry<T> -> bool, wide: Entry<T> -> bool)
    requires forall i :: 0 <= i < |entries| && narrow(entries[i]) ==> wide(entries[i])
    ensures |Scan(entries, narrow)| <= |Scan(entries, wide)|
    ensures Scan(entries, narrow) == Scan(entries, wide)
        <==> forall i :: 0 <= i < |entries| ==> narrow(entries[i]) == wide(entries[i])
  {
    if entries != [] {
      var init, last := entries[..|entries| - 1], entries[|entries| - 1];
      assert forall i :: 0 <= i < |init| ==> init[i] == entries[i];
      NarrowerScan(init, narrow, wide);
      if narrow(last) == wide(last) {
        var x, y := Scan(init, narrow), Scan(init, wide);
        if x + [last.value] == y + [last.value] {
          assert x == (x + [last.value])[..|x|] && y == (y + [last.value])[..|y|];
        }
      }
    }
  }

  lemma {:induction false} ScanAppends<T>(a: seq<Entry<T>>, b: seq<Entry<T>>, hit: Entry<T> -> bool)
    ensures Scan(a + b, hit) == Scan(a, hit) + Scan(b, hit)
  {
    if b == [] {
      assert a + b == a;
    } else {
      var n := |b| - 1;
      ScanAppends(a, b[..n], hit);
      assert (a + b)[..|a + b| - 1] == a + b[..n];
    }
  }

  /** An entry is lost for one request exactly when only star paths of it match. */
  predicate Hidden<T>(entry: Entry<T>, input: ApiMatchInput, others: OtherKinds) {
    && input.path.Some? && input.path.value != WILDCARD
    && (exists i :: 0 <= i < |entry.apis| && StarPath(entry.apis[i]) && VerbMatches(input, entry.apis[i]))
    && (forall i :: 0 <= i < |entry.apis| && ApiMatches(input, entry.apis[i], others) ==> StarPath(entry.apis[i]))
  }

  lemma HiddenIff<T>(entry: Entry<T>, input: ApiMatchInput, others: OtherKinds)
    ensures IndexHit(entry, input, others) ==> PlainHit(entry, input, others)
    ensures Hidden(entry, input, others) <==> PlainHit(entry, input, others) && !IndexHit(entry, input, others)
  {
    forall i | 0 <= i < |entry.apis|
      ensures IndexAccepts(input, entry.apis[i], others)
           <==> ApiMatches(input, entry.apis[i], others) && !(StarPath(entry.apis[i]) && input.path != Some(WILDCARD))
    {
      IndexAcceptsIff(input, entry.apis[i], others);
    }
    if Hidden(entry, input, others) {
      var i :| 0 <= i < |entry.apis| && StarPath(entry.apis[i]) && VerbMatches(input, entry.apis[i]);
      assert ApiMatches(input, entry.apis[i], others);
    }
  }

  /** The index agrees with the plain scan on one request exactly when no entry is hidden from it. */
  lemma IndexAgreesOnRequest<T>(entries: seq<Entry<T>>, input: ApiMatchInput, others: OtherKinds)
    ensures IndexScan(entries, input, others) == PlainScan(entries, input, others)
        <==> forall i :: 0 <= i < |entries| ==> !Hidden(entries[i], input, others)
  {
    forall i | 0 <= i < |entries|
      ensures IndexHit(entries[i], input, others) ==> PlainHit(entries[i], input, others)
      ensures Hidden(entries[i], input, others)
          <==> PlainHit(entries[i], input, others) && !IndexHit(entries[i], input, others)
    {
      HiddenIff(entries[i], input, others);
    }
    NarrowerScan(entries, (entry: Entry<T>) => IndexHit(entry, input, others),
      (entry: Entry<T>) => PlainHit(entry, input, others));
  }

  /** An API that accepts every path: no path, or a star kept for the full match. */
  predicate AcceptsEveryPath(api: Api) {
    api.path == None || (api.path.value.value == WILDCARD && !StarPath(api))
  }

  /** Every star path of the entry is backed by an API for the same method that accepts every path. */
  predicate StarsAreBacked<T>(entry: Entry<T>) {
    forall i :: 0 <= i < |entry.apis| && StarPath(entry.apis[i]) ==> Backed(entry.apis, i)
  }

  predicate Backed(apis: seq<Api>, i: nat)
    requires i < |apis|
  {
    exists j ::
      && 0 <= j < |apis| && AcceptsEveryPath(apis[j])
      && (BucketOf(apis[j]) == None || BucketOf(apis[j]) == BucketOf(apis[i]))
  }

  lemma BackedIsNeverHidden<T>(entry: Entry<T>, input: ApiMatchInput, others: OtherKinds)
    requires StarsAreBacked(entry)
    ensures !Hidden(entry, input, others)
  {
    if Hidden(entry, input, others) {
      var i :| 0 <= i < |entry.apis| && StarPath(entry.apis[i]) && VerbMatches(input, entry.apis[i]);
      assert Backed(entry.apis, i);
      var j :| && 0 <= j < |entry.apis| && AcceptsEveryPath(entry.apis[j])
               && (BucketOf(entry.apis[j]) == None || BucketOf(entry.apis[j]) == BucketOf(entry.apis[i]));
      assert ApiMatches(input, entry.apis[j], others);
      assert false;
    }
  }

  function LongestPath(apis: seq<Api>): (n: nat)
    ensures forall i :: 0 <= i < |apis| && apis[i].path.Some? ==> |apis[i].path.value.value| <= n
  {
    if apis == [] then 0
    else
      var rest := LongestPath(apis[1..]);
      assert forall i :: 1 <= i < |apis| ==> apis[i] == apis[1..][i - 1];
      if apis[0].path.Some? && |apis[0].path.value.value| > rest then |apis[0].path.value.value| else rest
  }

  const NOTHING_ELSE: OtherKinds := (rule: MatchString, actual: string) => false

  /** The request that loses an entry with the unbacked star path `apis[i]`. */
  function LosingRequest(apis: seq<Api>, i: nat): ApiMatchInput
    requires i < |apis|
  {
    ApiMatchInput(BucketOf(apis[i]), Some(seq(LongestPath(apis) + 2, (k: nat) => '/')))
  }

  lemma UnbackedIsHidden<T>(entry: Entry<T>, i: nat)
    requires i < |entry.apis| && StarPath(entry.apis[i])
    requires !Backed(entry.apis, i)
    ensures Hidden(entry, LosingRequest(entry.apis, i), NOTHING_ELSE)
  {
    var input := LosingRequest(entry.apis, i);
    assert |input.path.value| == LongestPath(entry.apis) + 2;
    forall j | 0 <= j < |entry.apis| && ApiMatches(input, entry.apis[j], NOTHING_ELSE)
      ensures StarPath(entry.apis[j])
    {
      assert VerbMatches(input, entry.apis[j]);
      assert !AcceptsEveryPath(entry.apis[j]);
      assert |entry.apis[j].path.value.value| <= LongestPath(entry.apis);
    }
  }

  ghost predicate AlwaysAgrees<T>(entries: seq<Entry<T>>) {
    forall input, others :: IndexScan(entries, input, others) == PlainScan(entries, input, others)
  }

  /** Whatever the other kinds of patterns mean, the index keeps the answer of the plain scan for
      every request exactly when every star path among the entries is backed. */
  lemma IndexAgreesIffStarsAreBacked<T>(entries: seq<Entry<T>>)
    ensures AlwaysAgrees(entries) <==> forall i :: 0 <= i < |entries| ==> StarsAreBacked(entries[i])
  {
    if forall i :: 0 <= i < |entries| ==> StarsAreBacked(entries[i]) {
      forall input, others
        ensures IndexScan(entries, input, others) == PlainScan(entries, input, others)
      {
        forall i | 0 <= i < |entries|
          ensures !Hidden(entries[i], input, others)
        {
          BackedIsNeverHidden(entries[i], input, others);
        }
        IndexAgreesOnRequest(entries, input, others);
      }
    } else {
      var i :| 0 <= i < |entries| && !StarsAreBacked(entries[i]);
      var apis := entries[i].apis;
      var k :| 0 <= k < |apis| && StarPath(apis[k]) && !Backed(apis, k);
      UnbackedIsHidden(entries[i], k);
      IndexAgreesOnRequest(entries, LosingRequest(apis, k), NOTHING_ELSE);
    }
  }

  /** A single rule for GET on the exact text path "*": the plain scan finds it for /orders, the
      index does not. */
  lemma StarPathIsLost()
    ensures
      var entries := [Entry(7, [Api("GET", Some(MatchString(Exact, "*", Text)))])];
      var input := ApiMatchInput(Some("GET"), Some("/orders"));
      && PlainScan(entries, input, NOTHING_ELSE) == [7]
      && IndexScan(entries, input, NOTHING_ELSE) == []
  {
    var entry := Entry(7, [Api("GET", Some(MatchString(Exact, "*", Text)))]);
    var entries, input := [entry], ApiMatchInput(Some("GET"), Some("/orders"));
    assert entries[..0] == [];
    assert ApiMatches(input, entry.apis[0], NOTHING_ELSE);
    assert PlainHit(entry, input, NOTHING_ELSE) && !IndexHit(entry, input, NOTHING_ELSE);
  }
}
