/** The trust bundle a workload holds: replacement never goes back, and within one sequence number the
    security content stays what it was. */
module TrustBundles {
  import opened QuotaTypes

  const KEY_LENGTH: nat := 32
  function Zeros(n: nat): (bytes: seq<bv8>)
    ensures |bytes| == n
  {
    if n == 0 then [] else Zeros(n - 1) + [0]
  }

  type PublicKey = bytes: seq<bv8> | |bytes| == KEY_LENGTH witness Zeros(KEY_LENGTH)

  datatype TrustKey = TrustKey(keyId: string, publicKey: PublicKey, notBefore: int, notAfter: int)

  datatype Snapshot = Snapshot(
    trustDomain: string, issuer: string, version: string, sequence: nat, expiresAt: int,
    keys: seq<TrustKey>, subjectRevocations: map<string, int>, credentialRevocations: set<string>)

  /** The state before any bundle arrived. */
  const NO_BUNDLE: Snapshot := Snapshot("", "", "", 0, 0, [], map[], {})

  datatype Refusal = Rollback | ContentChanged

  datatype Replacement = Replaced(bundle: Snapshot) | Refused(reason: Refusal)

  predicate SameKey(a: TrustKey, b: TrustKey) {
    a.keyId == b.keyId && a.publicKey == b.publicKey
  }

  /** The identity of a key, its validity window aside. */
  function Pair(key: TrustKey): (string, PublicKey) {
    (key.keyId, key.publicKey)
  }

  predicate Covered(key: TrustKey, offered: seq<TrustKey>) {
    exists j :: 0 <= j < |offered| && SameKey(key, offered[j])
  }

  predicate SameSecurityContent(current: Snapshot, candidate: Snapshot) {
    && current.trustDomain == candidate.trustDomain
    && current.issuer == candidate.issuer
    && current.version == candidate.version
    && |current.keys| == |candidate.keys|
    && (forall i :: 0 <= i < |current.keys| ==> Covered(current.keys[i], candidate.keys))
    && current.subjectRevocations == candidate.subjectRevocations
    && current.credentialRevocations == candidate.credentialRevocations
  }

  function Replace(current: Snapshot, bundle: Snapshot): Replacement {
    if bundle.sequence < current.sequence then Refused(Rollback)
    else if bundle.sequence == current.sequence && current.version != "" then
      if bundle.version != current.version then Refused(Rollback)
      else if !SameSecurityContent(current, bundle) then Refused(ContentChanged)
      else Replaced(bundle)
    else Replaced(bundle)
  }

  /** A text of the bundle that is more than blanks. */
  predicate Readable(text: string) {
    exists i :: 0 <= i < |text| && text[i] !in BLANKS
  }

  const BLANKS: set<char> := {' ', '\t', '\n', '\r'}

  /** What the conversion of a server's bundle guarantees. */
  predicate Converted(bundle: Snapshot) {
    && bundle.sequence > 0
    && Readable(bundle.version) && Readable(bundle.issuer) && Readable(bundle.trustDomain)
    && bundle.keys != [] && forall key :: key in bundle.keys ==> Readable(key.keyId)
  }

  /** Some key of the list has this id and public key. */
  predicate Lists(keys: seq<TrustKey>, keyId: string, publicKey: PublicKey) {
    exists key :: key in keys && key.keyId == keyId && key.publicKey == publicKey
  }

  lemma CoveredIff(key: TrustKey, offered: seq<TrustKey>)
    ensures Covered(key, offered) <==> Lists(offered, key.keyId, key.publicKey)
  {
    if Covered(key, offered) {
      var j :| 0 <= j < |offered| && SameKey(key, offered[j]);
      assert offered[j] in offered;
    }
    if Lists(offered, key.keyId, key.publicKey) {
      var other :| other in offered && other.keyId == key.keyId && other.publicKey == key.publicKey;
      var j :| 0 <= j < |offered| && offered[j] == other;
      assert SameKey(key, offered[j]);
    }
  }

  class IdentityState {
    var trustBundle: Snapshot

    constructor ()
      ensures trustBundle == NO_BUNDLE
    {
      trustBundle := NO_BUNDLE;
    }

    /** A newer bundle is always installed and an older one always refused as a rollback. One of the sequence
        already held renews it exactly when the version is the same and nothing that security rests on has
        changed. A refused bundle changes nothing. */
    method ReplaceTrustBundle(bundle: Snapshot) returns (refusal: Option<Refusal>)
      modifies this
      ensures trustBundle == if refusal == None then bundle else old(trustBundle)
      ensures bundle.sequence > old(trustBundle).sequence ==> refusal == None
      ensures bundle.sequence < old(trustBundle).sequence ==> refusal == Some(Rollback)
      ensures bundle.sequence == old(trustBundle).sequence && old(trustBundle).version == "" ==> refusal == None
      ensures bundle.sequence == old(trustBundle).sequence && old(trustBundle).version != "" ==>
        (refusal == Some(Rollback) <==> bundle.version != old(trustBundle).version)
      ensures bundle.sequence == old(trustBundle).sequence && old(trustBundle).version != "" ==>
        (refusal == None <==>
          && old(trustBundle).trustDomain == bundle.trustDomain && old(trustBundle).issuer == bundle.issuer
          && old(trustBundle).version == bundle.version
          && |old(trustBundle).keys| == |bundle.keys|
          && (forall key :: key in old(trustBundle).keys ==> Lists(bundle.keys, key.keyId, key.publicKey))
          && old(trustBundle).subjectRevocations == bundle.subjectRevocations
          && old(trustBundle).credentialRevocations == bundle.credentialRevocations)
      ensures match Replace(old(trustBundle), bundle)
              case Replaced(accepted) => refusal == None && trustBundle == accepted
              case Refused(reason) => refusal == Some(reason) && trustBundle == old(trustBundle)
    {
      if bundle.sequence < trustBundle.sequence {
        return Some(Rollback);
      }
      if bundle.sequence == trustBundle.sequence && trustBundle.version != "" {
        if bundle.version != trustBundle.version {
          return Some(Rollback);
        }
        forall key: TrustKey
          ensures Covered(key, bundle.keys) <==> Lists(bundle.keys, key.keyId, key.publicKey)
        {
          CoveredIff(key, bundle.keys);
        }
        if !SameSecurityContent(trustBundle, bundle) {
          return Some(ContentChanged);
        }
      }
      trustBundle := bundle;
      refusal := None;
    }
  }

  // ---- key sets

  function Pairs(keys: seq<TrustKey>): set<(string, PublicKey)> {
    set key | key in keys :: Pair(key)
  }

  predicate DistinctPairs(keys: seq<TrustKey>) {
    forall i, j :: 0 <= i < j < |keys| ==> !SameKey(keys[i], keys[j])
  }

  lemma OneMorePair(init: seq<TrustKey>, last: TrustKey)
    ensures Pairs(init + [last]) == Pairs(init) + {Pair(last)}
    ensures DistinctPairs(init + [last]) <==> DistinctPairs(init) && Pair(last) !in Pairs(init)
  {
    var keys := init + [last];
    assert forall i :: 0 <= i < |init| ==> keys[i] == init[i] && Pair(init[i]) in Pairs(init);
    if Pair(last) in Pairs(init) {
      var i :| 0 <= i < |init| && Pair(init[i]) == Pair(last);
      assert SameKey(keys[i], keys[|init|]);
    }
    if !DistinctPairs(init) {
      var i, j :| 0 <= i < j < |init| && SameKey(init[i], init[j]);
      assert SameKey(keys[i], keys[j]);
    }
  }

  lemma {:induction false} PairCount(keys: seq<TrustKey>)
    ensures |Pairs(keys)| <= |keys|
    ensures |Pairs(keys)| == |keys| <==> DistinctPairs(keys)
  {
    if keys != [] {
      var init, last := keys[..|keys| - 1], keys[|keys| - 1];
      PairCount(init);
      OneMorePair(init, last);
      assert keys == init + [last];
    }
  }

  /** One-way inclusion and equal length are enough when the current pairs are distinct: no key is
      added, and the new list is distinct again. */
  lemma InclusionIsEquality(current: Snapshot, candidate: Snapshot)
    requires SameSecurityContent(current, candidate) && DistinctPairs(current.keys)
    ensures Pairs(candidate.keys) == Pairs(current.keys) && DistinctPairs(candidate.keys)
  {
    PairCount(current.keys);
    PairCount(candidate.keys);
    forall pair | pair in Pairs(current.keys)
      ensures pair in Pairs(candidate.keys)
    {
      var key :| key in current.keys && Pair(key) == pair;
      var i :| 0 <= i < |current.keys| && current.keys[i] == key;
      assert Covered(current.keys[i], candidate.keys);
      var j :| 0 <= j < |candidate.keys| && SameKey(current.keys[i], candidate.keys[j]);
      assert candidate.keys[j] in candidate.keys;
    }
    SubsetOfSameSize(Pairs(current.keys), Pairs(candidate.keys));
  }

  /** A key id longer than any in the list. */
  function LongerId(keys: seq<TrustKey>): (id: string) {
    if keys == [] then "+"
    else LongerId(keys[..|keys| - 1]) + keys[|keys| - 1].keyId
  }

  lemma {:induction false} LongerIdIsNew(keys: seq<TrustKey>)
    ensures LongerId(keys) != [] && LongerId(keys)[0] == '+'
    ensures forall i :: 0 <= i < |keys| ==> |keys[i].keyId| < |LongerId(keys)|
  {
    if keys != [] {
      LongerIdIsNew(keys[..|keys| - 1]);
    }
  }

  /** Some key is in none of the pairs of a list. */
  lemma NewKey(keys: seq<TrustKey>) returns (key: TrustKey)
    ensures Readable(key.keyId) && forall i :: 0 <= i < |keys| ==> keys[i].keyId != key.keyId
  {
    LongerIdIsNew(keys);
    key := TrustKey(LongerId(keys), Zeros(KEY_LENGTH), 0, 0);
  }

  ghost predicate KeysAreFrozen(current: Snapshot) {
    forall bundle: Snapshot ::
      Converted(bundle) && bundle.sequence == current.sequence && Replace(current, bundle).Replaced? ==>
        Pairs(bundle.keys) == Pairs(current.keys)
  }

  /** One of the keys replaced by another. */
  function Traded(current: Snapshot, j: nat, key: TrustKey): Snapshot
    requires j < |current.keys|
  {
    current.(keys := current.keys[j := key])
  }

  lemma TradedIsAccepted(current: Snapshot, i: nat, j: nat, key: TrustKey)
    requires i < j < |current.keys| && SameKey(current.keys[i], current.keys[j])
    ensures Replace(current, Traded(current, j, key)).Replaced?
  {
    var bundle := Traded(current, j, key);
    forall k | 0 <= k < |current.keys|
      ensures Covered(current.keys[k], bundle.keys)
    {
      var l := if k == j then i else k;
      assert SameKey(current.keys[k], bundle.keys[l]);
    }
  }

  lemma TradedDiffers(current: Snapshot, j: nat, key: TrustKey)
    requires j < |current.keys| && forall i :: 0 <= i < |current.keys| ==> current.keys[i].keyId != key.keyId
    ensures Pairs(Traded(current, j, key).keys) != Pairs(current.keys)
  {
    assert Traded(current, j, key).keys[j] == key && Pair(key) in Pairs(Traded(current, j, key).keys);
    assert Pair(key) !in Pairs(current.keys);
  }

  lemma TradedIsConverted(current: Snapshot, j: nat, key: TrustKey)
    requires Converted(current) && j < |current.keys| && Readable(key.keyId)
    ensures Converted(Traded(current, j, key))
  {
  }

  /** A repeated key can be traded for a new one. */
  lemma RepeatedKeyCanBeTraded(current: Snapshot, i: nat, j: nat) returns (bundle: Snapshot)
    requires Converted(current) && i < j < |current.keys| && SameKey(current.keys[i], current.keys[j])
    ensures Converted(bundle) && bundle.sequence == current.sequence && Replace(current, bundle).Replaced?
    ensures Pairs(bundle.keys) != Pairs(current.keys)
  {
    var key := NewKey(current.keys);
    TradedIsAccepted(current, i, j, key);
    TradedDiffers(current, j, key);
    TradedIsConverted(current, j, key);
    bundle := Traded(current, j, key);
  }

  /** Among the bundles a server can send, renewal within a sequence number keeps the key set exactly when
      the keys held are distinct. */
  lemma KeysAreFrozenIffDistinct(current: Snapshot)
    requires Converted(current)
    ensures KeysAreFrozen(current) <==> DistinctPairs(current.keys)
  {
    if DistinctPairs(current.keys) {
      forall bundle: Snapshot |
        Converted(bundle) && bundle.sequence == current.sequence && Replace(current, bundle).Replaced?
        ensures Pairs(bundle.keys) == Pairs(current.keys)
      {
        InclusionIsEquality(current, bundle);
      }
    } else {
      var i, j :| 0 <= i < j < |current.keys| && SameKey(current.keys[i], current.keys[j]);
      var bundle := RepeatedKeyCanBeTraded(current, i, j);
    }
  }

  // ---- runs

  function Offered(current: Snapshot, bundle: Snapshot): Snapshot {
    match Replace(current, bundle)
    case Replaced(accepted) => accepted
    case Refused(_) => current
  }

  function After(current: Snapshot, offers: seq<Snapshot>): Snapshot
    decreases |offers|
  {
    if offers == [] then current else After(Offered(current, offers[0]), offers[1..])
  }

  /** Whenever an offer opens a new sequence number its keys are distinct. */
  predicate OpensDistinctly(current: Snapshot, offers: seq<Snapshot>)
    decreases |offers|
  {
    offers != [] ==>
      && Converted(offers[0])
      && (offers[0].sequence > current.sequence ==> DistinctPairs(offers[0].keys))
      && OpensDistinctly(Offered(current, offers[0]), offers[1..])
  }

  /** The parts of a bundle that may not change without a new sequence number. */
  predicate SameBundle(a: Snapshot, b: Snapshot) {
    && a.trustDomain == b.trustDomain && a.issuer == b.issuer && a.version == b.version
    && Pairs(a.keys) == Pairs(b.keys)
    && a.subjectRevocations == b.subjectRevocations && a.credentialRevocations == b.credentialRevocations
  }

  predicate Held(s: Snapshot) {
    s.sequence > 0 ==> s.version != "" && DistinctPairs(s.keys)
  }

  lemma OfferKeepsHeld(current: Snapshot, bundle: Snapshot)
    requires Held(current) && Converted(bundle)
    requires bundle.sequence > current.sequence ==> DistinctPairs(bundle.keys)
    ensures Held(Offered(current, bundle)) && current.sequence <= Offered(current, bundle).sequence
    ensures current.sequence > 0 && Offered(current, bundle).sequence == current.sequence ==>
      SameBundle(current, Offered(current, bundle))
  {
    if current.sequence > 0 && bundle.sequence == current.sequence && Replace(current, bundle).Replaced? {
      InclusionIsEquality(current, bundle);
    }
  }

  /** Over any run of offers the sequence number never falls, and as long as it stays the same so do
      domain, issuer, version, keys and revocations. */
  lemma {:induction false} HistoryIsStable(current: Snapshot, offers: seq<Snapshot>)
    requires Held(current) && OpensDistinctly(current, offers)
    ensures Held(After(current, offers)) && current.sequence <= After(current, offers).sequence
    ensures current.sequence > 0 && After(current, offers).sequence == current.sequence ==>
      SameBundle(current, After(current, offers))
    decreases |offers|
  {
    if offers != [] {
      OfferKeepsHeld(current, offers[0]);
      HistoryIsStable(Offered(current, offers[0]), offers[1..]);
    }
  }

  /** Over any run of offers, whatever was refused on the way, what is held at the end has the greatest
      sequence number among what was held at the start and all that was offered. */
  lemma {:induction false} HeldSequenceIsTheGreatest(current: Snapshot, offers: seq<Snapshot>)
    ensures
      var held := After(current, offers);
      && current.sequence <= held.sequence && (forall i :: 0 <= i < |offers| ==> offers[i].sequence <= held.sequence)
      && (held == current || exists i :: 0 <= i < |offers| && offers[i] == held)
    decreases |offers|
  {
    if offers != [] {
      var next, rest := Offered(current, offers[0]), offers[1..];
      HeldSequenceIsTheGreatest(next, rest);
      assert forall i :: 1 <= i < |offers| ==> offers[i] == rest[i - 1];
      if exists i :: 0 <= i < |rest| && rest[i] == After(next, rest) {
        var i :| 0 <= i < |rest| && rest[i] == After(next, rest);
        assert offers[i + 1] == After(current, offers);
      }
    }
  }

  lemma {:induction false} AfterSplits(current: Snapshot, first: seq<Snapshot>, second: seq<Snapshot>)
    requires OpensDistinctly(current, first + second)
    ensures After(current, first + second) == After(After(current, first), second)
    ensures OpensDistinctly(current, first) && OpensDistinctly(After(current, first), second)
    decreases |first|
  {
    if first == [] {
      assert first + second == second;
    } else {
      assert (first + second)[1..] == first[1..] + second;
      AfterSplits(Offered(current, first[0]), first[1..], second);
    }
  }

  /** Any two snapshots of one history with the same sequence number agree. */
  lemma SnapshotsOfOneSequenceAgree(earlier: seq<Snapshot>, later: seq<Snapshot>)
    requires OpensDistinctly(NO_BUNDLE, earlier + later)
    ensures
      var a, b := After(NO_BUNDLE, earlier), After(NO_BUNDLE, earlier + later);
      a.sequence <= b.sequence && (a.sequence == b.sequence && a.sequence > 0 ==> SameBundle(a, b))
  {
    AfterSplits(NO_BUNDLE, earlier, later);
    HistoryIsStable(NO_BUNDLE, earlier);
    HistoryIsStable(After(NO_BUNDLE, earlier), later);
  }
}
