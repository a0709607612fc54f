/** How sums over sets of leases behave when leases are added, removed or revalued. */
module LedgerSums {
  import opened QuotaLedger

  /** The sum does not depend on the order in which the leases are visited. */
  lemma {:induction false} TotalRemove(leases: map<LeaseId, LocalLease>, id: LeaseId, measure: Measure)
    requires id in leases
    ensures Total(leases, measure) == Weight(measure, leases[id]) + Total(leases - {id}, measure)
    decreases |leases|
  {
    var first :| first in leases
      && Total(leases, measure) == Weight(measure, leases[first]) + Total(leases - {first}, measure);
    if first != id {
      assert (leases - {first}).Keys == leases.Keys - {first};
      assert (leases - {id}).Keys == leases.Keys - {id};
      TotalRemove(leases - {first}, id, measure);
      TotalRemove(leases - {id}, first, measure);
      assert leases - {first} - {id} == leases - {id} - {first};
    }
  }

  lemma TotalInsert(leases: map<LeaseId, LocalLease>, id: LeaseId, lease: LocalLease, measure: Measure)
    requires id !in leases
    ensures Total(leases[id := lease], measure) == Weight(measure, lease) + Total(leases, measure)
  {
    TotalRemove(leases[id := lease], id, measure);
    assert leases[id := lease] - {id} == leases;
  }

  lemma TotalSingle(id: LeaseId, lease: LocalLease, measure: Measure)
    ensures Total(map[id := lease], measure) == Weight(measure, lease)
  {
    TotalInsert(map[], id, lease, measure);
    assert map[][id := lease] == map[id := lease];
  }

  lemma PutBack<K, V>(m: map<K, V>, id: K)
    requires id in m
    ensures (m - {id}).Keys == m.Keys - {id}
    ensures (m - {id})[id := m[id]] == m
  {
  }

  lemma MergePut<K, V>(a: map<K, V>, b: map<K, V>, id: K, value: V)
    ensures a + b[id := value] == (a + b)[id := value]
  {
  }

  /** Disjoint sets of leases add up. */
  lemma {:induction false} TotalUnion(a: map<LeaseId, LocalLease>, b: map<LeaseId, LocalLease>, measure: Measure)
    requires a.Keys !! b.Keys
    ensures Total(a + b, measure) == Total(a, measure) + Total(b, measure)
    decreases |b|
  {
    if b == map[] {
      assert a + b == a;
    } else {
      var id :| id in b;
      var rest := b - {id};
      PutBack(b, id);
      MergePut(a, rest, id, b[id]);
      TotalUnion(a, rest, measure);
      TotalInsert(rest, id, b[id], measure);
      TotalInsert(a + rest, id, b[id], measure);
    }
  }

  /** Leases of equal weight have equal sums. */
  lemma {:induction false} TotalSameWeights(a: map<LeaseId, LocalLease>, b: map<LeaseId, LocalLease>, measure: Measure)
    requires a.Keys == b.Keys
    requires forall id :: id in a ==> Weight(measure, a[id]) == Weight(measure, b[id])
    ensures Total(a, measure) == Total(b, measure)
    decreases |a|
  {
    if a == map[] {
      assert b == map[];
    } else {
      var id :| id in a;
      TotalRemove(a, id, measure);
      TotalRemove(b, id, measure);
      assert (a - {id}).Keys == a.Keys - {id} == (b - {id}).Keys;
      TotalSameWeights(a - {id}, b - {id}, measure);
    }
  }

  lemma {:induction false} TotalZero(leases: map<LeaseId, LocalLease>, measure: Measure)
    requires forall id :: id in leases ==> Weight(measure, leases[id]) == 0
    ensures Total(leases, measure) == 0
    decreases |leases|
  {
    if leases != map[] {
      var id :| id in leases;
      TotalRemove(leases, id, measure);
      assert (leases - {id}).Keys == leases.Keys - {id};
      TotalZero(leases - {id}, measure);
    }
  }

  /** Leases that never spend more than they reserved spend no more than they hold. */
  lemma {:induction false} SpentWithinHeld(leases: map<LeaseId, LocalLease>, key: WindowKey, generation: nat)
    requires forall id :: id in leases ==> leases[id].consumedTotal <= leases[id].reservedAmount
    ensures Total(leases, Spent(key, generation)) <= Total(leases, Held(key, generation))
    decreases |leases|
  {
    if leases != map[] {
      var id :| id in leases;
      TotalRemove(leases, id, Spent(key, generation));
      TotalRemove(leases, id, Held(key, generation));
      var lease := leases[id];
      ChargeMonotone(lease.windows, key, generation, lease.consumedTotal, lease.reservedAmount);
      assert (leases - {id}).Keys == leases.Keys - {id};
      SpentWithinHeld(leases - {id}, key, generation);
    }
  }

  lemma {:induction false} ChargeMonotone(rs: seq<Reservation>, key: WindowKey, generation: nat, low: nat, high: nat)
    requires low <= high
    ensures Charge(rs, key, generation, low) <= Charge(rs, key, generation, high)
  {
    if rs != [] {
      ChargeMonotone(rs[..|rs| - 1], key, generation, low, high);
    }
  }

  lemma {:induction false} ChargeAbsent(rs: seq<Reservation>, key: WindowKey, generation: nat, amount: nat)
    requires Reservation(key, generation) !in rs
    ensures Charge(rs, key, generation, amount) == 0
  {
    if rs != [] {
      ChargeAbsent(rs[..|rs| - 1], key, generation, amount);
    }
  }

  /** A key reserved exactly once is charged exactly once. */
  lemma {:induction false} ChargeOnce(rs: seq<Reservation>, at: nat, amount: nat)
    requires at < |rs|
    requires forall i :: 0 <= i < |rs| && i != at ==> rs[i] != rs[at]
    ensures Charge(rs, rs[at].key, rs[at].generation, amount) == amount
  {
    var rest := rs[..|rs| - 1];
    if at == |rs| - 1 {
      ChargeAbsent(rest, rs[at].key, rs[at].generation, amount);
    } else {
      ChargeOnce(rest, at, amount);
    }
  }
}
