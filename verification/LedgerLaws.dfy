/** The laws of the local quota ledger: what every operation keeps, and so what holds in every
    state any run can reach. */
module LedgerLaws {
  import opened QuotaTypes
  import opened QuotaLedger
  import opened LedgerSums

  // ---------- soundness: holds for every configuration ----------

  /** The window a live lease reserved in: still there, not ahead of it, and no further ahead
      than the seconds the lease has been alive. */
  ghost predicate SoundReservation(windows: map<WindowKey, QuotaWindow>, r: Reservation, expiresAt: nat) {
    && r.key in windows
    && var window := windows[r.key];
    && window.startedAt < expiresAt
    && r.generation <= window.generation
    && (r.generation < window.generation ==>
          (window.generation - r.generation - 1) * SECOND + expiresAt <= window.startedAt + MAX_TTL)
  }

  ghost predicate SoundLease(windows: map<WindowKey, QuotaWindow>, lease: LocalLease, clock: nat) {
    && 0 < lease.reservedAmount <= U32_MAX
    && lease.consumedTotal <= lease.reservedAmount
    && lease.expiresAt <= clock + MAX_TTL
    && (lease.accounting.Occupancy? ==> lease.windows == [] && lease.concurrencyKey.Some?)
    && (forall r :: r in lease.windows ==> SoundReservation(windows, r, lease.expiresAt))
  }

  ghost predicate SoundRetired(windows: map<WindowKey, QuotaWindow>, lease: LocalLease) {
    && lease.consumedTotal <= lease.reservedAmount
    && forall r :: r in lease.windows ==> r.key in windows && r.generation <= windows[r.key].generation
  }

  ghost predicate Sound(ledger: Ledger, clock: nat) {
    && ledger.leases.Keys !! ledger.retired.Keys
    && (forall key :: key in ledger.windows ==> key.seconds >= 1 && ledger.windows[key].startedAt <= clock)
    && (forall id :: id in ledger.leases ==> SoundLease(ledger.windows, ledger.leases[id], clock))
    && (forall id :: id in ledger.retired ==> SoundRetired(ledger.windows, ledger.retired[id]))
    && (forall id :: id in ledger.completed ==>
          id in ledger.retired && ledger.completed[id].consumedTotal == ledger.retired[id].consumedTotal)
  }

  /** Comparing wrapped generations, as the source does, is comparing the generations: a lease
      does not live long enough for 2^64 rollovers of a window. */
  lemma WrappedComparisonIsExact(windows: map<WindowKey, QuotaWindow>, r: Reservation, expiresAt: nat)
    requires SoundReservation(windows, r, expiresAt)
    ensures Wrapped(windows[r.key].generation) == Wrapped(r.generation) <==> windows[r.key].generation == r.generation
  {
    var lag := windows[r.key].generation - r.generation;
    assert lag <= U32_MAX + 1;
    var m := U64_MAX + 1;
    if Wrapped(windows[r.key].generation) == Wrapped(r.generation) {
      var a, b := windows[r.key].generation / m, r.generation / m;
      assert windows[r.key].generation == a * m + windows[r.key].generation % m;
      assert r.generation == b * m + r.generation % m;
      assert lag == (a - b) * m;
      assert a - b < 1;
    }
  }

  // ---------- the accounts ----------

  /** A window's counters are exactly what the leases add up to in its current generation. */
  ghost predicate WindowBalanced(ledger: Ledger, key: WindowKey)
    requires key in ledger.windows
  {
    var window := ledger.windows[key];
    && window.reserved == Total(ledger.leases, Held(key, window.generation))
    && window.committed == Total(ledger.retired, Spent(key, window.generation))
  }

  function Occupied(concurrency: map<string, nat>, slot: string): nat {
    if slot in concurrency then concurrency[slot] else 0
  }

  ghost predicate Balanced(ledger: Ledger) {
    && (forall key :: key in ledger.windows ==> WindowBalanced(ledger, key))
    && (forall slot :: Occupied(ledger.concurrency, slot) == Total(ledger.leases, Occupying(slot)))
  }

  /** The largest amount the rules ever allow under each window key and concurrency key. */
  datatype Limits = Limits(windows: map<WindowKey, nat>, slots: map<string, nat>)

  ghost predicate Capped(ledger: Ledger, limits: Limits) {
    && (forall key :: key in ledger.windows ==>
          && key in limits.windows
          && ledger.windows[key].committed + ledger.windows[key].reserved <= limits.windows[key] <= U32_MAX)
    && (forall slot :: slot in ledger.concurrency ==>
          slot in limits.slots && ledger.concurrency[slot] <= limits.slots[slot] <= U32_MAX)
  }

  /** The books are in order: they balance and no cap is exceeded. */
  ghost predicate Books(ledger: Ledger, limits: Limits) {
    Balanced(ledger) && Capped(ledger, limits)
  }

  // ---------- settling ----------

  /** `gone` are leases of `leases`, each with a final total inside its reservation. */
  ghost predicate Finals(gone: map<LeaseId, LocalLease>, leases: map<LeaseId, LocalLease>) {
    && gone.Keys <= leases.Keys
    && forall id :: id in gone ==>
         && gone[id] == leases[id].(consumedTotal := gone[id].consumedTotal)
         && gone[id].consumedTotal <= gone[id].reservedAmount
  }

  lemma TotalAfterRetiring(leases: map<LeaseId, LocalLease>, gone: map<LeaseId, LocalLease>, measure: Measure)
    requires Finals(gone, leases) && !measure.Spent?
    ensures Total(leases, measure) == Total(leases - gone.Keys, measure) + Total(gone, measure)
  {
    var part := map id | id in gone :: leases[id];
    var live := leases - gone.Keys;
    assert live + part == leases;
    TotalUnion(live, part, measure);
    TotalSameWeights(part, gone, measure);
  }

  /** What a settlement takes from and gives to one window. */
  ghost predicate WindowHasRoom(ledger: Ledger, gone: map<LeaseId, LocalLease>, key: WindowKey)
    requires key in ledger.windows
  {
    var window := ledger.windows[key];
    && Total(gone, Held(key, window.generation)) <= window.reserved
    && window.committed + Total(gone, Spent(key, window.generation)) <= U32_MAX
    && Total(gone, Spent(key, window.generation)) <= Total(gone, Held(key, window.generation))
  }

  lemma WindowNeverClips(ledger: Ledger, gone: map<LeaseId, LocalLease>, limits: Limits, key: WindowKey)
    requires Balanced(ledger) && Capped(ledger, limits) && Finals(gone, ledger.leases)
    requires key in ledger.windows
    ensures WindowHasRoom(ledger, gone, key)
  {
    var generation := ledger.windows[key].generation;
    assert WindowBalanced(ledger, key);
    TotalAfterRetiring(ledger.leases, gone, Held(key, generation));
    SpentWithinHeld(gone, key, generation);
  }

  /** No `saturating_sub` or `saturating_add` of a settlement ever clips: not in a window, not in a slot. */
  lemma SettlingNeverClips(ledger: Ledger, gone: map<LeaseId, LocalLease>, limits: Limits)
    requires Balanced(ledger) && Capped(ledger, limits) && Finals(gone, ledger.leases)
    ensures forall key :: key in ledger.windows ==> WindowHasRoom(ledger, gone, key)
    ensures forall slot :: Total(gone, Occupying(slot)) <= Occupied(ledger.concurrency, slot)
  {
    forall key | key in ledger.windows
      ensures WindowHasRoom(ledger, gone, key)
    {
      WindowNeverClips(ledger, gone, limits, key);
    }
    forall slot
      ensures Total(gone, Occupying(slot)) <= Occupied(ledger.concurrency, slot)
    {
      assert Occupied(ledger.concurrency, slot) == Total(ledger.leases, Occupying(slot));
      TotalAfterRetiring(ledger.leases, gone, Occupying(slot));
    }
  }

  lemma SettledTwice(key: WindowKey, window: QuotaWindow, a: map<LeaseId, LocalLease>, b: map<LeaseId, LocalLease>)
    requires a.Keys !! b.Keys
    ensures SettledWindow(key, SettledWindow(key, window, a), b) == SettledWindow(key, window, a + b)
  {
    TotalUnion(a, b, Held(key, window.generation));
    TotalUnion(a, b, Spent(key, window.generation));
  }

  lemma ReleasedAt(
      concurrency: map<string, nat>, a: map<LeaseId, LocalLease>, b: map<LeaseId, LocalLease>, slot: string)
    requires a.Keys !! b.Keys
    ensures var twice := SettledConcurrency(SettledConcurrency(concurrency, a), b);
            var once := SettledConcurrency(concurrency, a + b);
            && (slot in twice <==> slot in once)
            && (slot in once ==> twice[slot] == once[slot])
  {
    TotalUnion(a, b, Occupying(slot));
  }

  lemma ReleasedTwice(concurrency: map<string, nat>, a: map<LeaseId, LocalLease>, b: map<LeaseId, LocalLease>)
    requires a.Keys !! b.Keys
    ensures SettledConcurrency(SettledConcurrency(concurrency, a), b) == SettledConcurrency(concurrency, a + b)
  {
    var twice, once := SettledConcurrency(SettledConcurrency(concurrency, a), b),
      SettledConcurrency(concurrency, a + b);
    forall slot
      ensures (slot in twice <==> slot in once) && (slot in once ==> twice[slot] == once[slot])
    {
      ReleasedAt(concurrency, a, b, slot);
    }
    assert twice == once;
  }

  lemma TakenTwice<K, V>(m: map<K, V>, a: map<K, V>, b: map<K, V>)
    ensures m + a + b == m + (a + b) && m - a.Keys - b.Keys == m - (a + b).Keys
  {
  }

  /** Settling some leases and then others is settling them together. */
  lemma RetireUnion(
      ledger: Ledger, a: map<LeaseId, LocalLease>, b: map<LeaseId, LocalLease>, both: map<LeaseId, LocalLease>)
    requires a.Keys !! b.Keys && both == a + b
    ensures Retire(Retire(ledger, a), b) == Retire(ledger, both)
  {
    forall key | key in ledger.windows
      ensures SettledWindow(key, SettledWindow(key, ledger.windows[key], a), b)
           == SettledWindow(key, ledger.windows[key], both)
    {
      SettledTwice(key, ledger.windows[key], a, b);
    }
    assert SettledWindows(SettledWindows(ledger.windows, a), b) == SettledWindows(ledger.windows, both);
    ReleasedTwice(ledger.concurrency, a, b);
    TakenTwice(ledger.leases, a, b);
    TakenTwice(ledger.retired, a, b);
  }

  lemma RetireKeepsWindow(ledger: Ledger, gone: map<LeaseId, LocalLease>, limits: Limits, key: WindowKey)
    requires Books(ledger, limits) && Finals(gone, ledger.leases)
    requires ledger.leases.Keys !! ledger.retired.Keys
    requires key in ledger.windows
    ensures WindowBalanced(Retire(ledger, gone), key)
    ensures var window := Retire(ledger, gone).windows[key];
            window.committed + window.reserved <= ledger.windows[key].committed + ledger.windows[key].reserved
  {
    var generation := ledger.windows[key].generation;
    assert WindowBalanced(ledger, key);
    WindowNeverClips(ledger, gone, limits, key);
    TotalAfterRetiring(ledger.leases, gone, Held(key, generation));
    TotalUnion(ledger.retired, gone, Spent(key, generation));
  }

  lemma RetireKeepsSlot(ledger: Ledger, gone: map<LeaseId, LocalLease>, slot: string)
    requires Balanced(ledger) && Finals(gone, ledger.leases)
    ensures var after := Retire(ledger, gone);
            Occupied(after.concurrency, slot)
            == Total(after.leases, Occupying(slot)) <= Occupied(ledger.concurrency, slot)
  {
    assert Occupied(ledger.concurrency, slot) == Total(ledger.leases, Occupying(slot));
    TotalAfterRetiring(ledger.leases, gone, Occupying(slot));
  }

  lemma RetireKeepsBooks(ledger: Ledger, gone: map<LeaseId, LocalLease>, limits: Limits)
    requires Books(ledger, limits) && Finals(gone, ledger.leases)
    requires ledger.leases.Keys !! ledger.retired.Keys
    ensures Books(Retire(ledger, gone), limits)
  {
    var after := Retire(ledger, gone);
    forall key | key in after.windows
      ensures WindowBalanced(after, key)
      ensures after.windows[key].committed + after.windows[key].reserved <= limits.windows[key]
    {
      RetireKeepsWindow(ledger, gone, limits, key);
    }
    forall slot
      ensures Occupied(after.concurrency, slot)
          == Total(after.leases, Occupying(slot)) <= Occupied(ledger.concurrency, slot)
    {
      RetireKeepsSlot(ledger, gone, slot);
    }
  }

  lemma RetireKeepsLease(ledger: Ledger, gone: map<LeaseId, LocalLease>, lease: LocalLease, clock: nat)
    requires SoundLease(ledger.windows, lease, clock)
    ensures SoundLease(Retire(ledger, gone).windows, lease, clock)
    ensures SoundRetired(Retire(ledger, gone).windows, lease)
  {
    var windows := Retire(ledger, gone).windows;
    forall r | r in lease.windows
      ensures SoundReservation(windows, r, lease.expiresAt)
    {
      assert SoundReservation(ledger.windows, r, lease.expiresAt);
    }
  }

  lemma RetireKeepsSound(ledger: Ledger, gone: map<LeaseId, LocalLease>, clock: nat)
    requires Sound(ledger, clock) && Finals(gone, ledger.leases)
    ensures Sound(Retire(ledger, gone), clock)
  {
    var after := Retire(ledger, gone);
    assert after.windows.Keys == ledger.windows.Keys;
    forall id | id in ledger.leases
      ensures SoundLease(after.windows, ledger.leases[id], clock)
      ensures SoundRetired(after.windows, ledger.leases[id])
    {
      RetireKeepsLease(ledger, gone, ledger.leases[id], clock);
    }
    forall id | id in after.retired
      ensures SoundRetired(after.windows, after.retired[id])
    {
      if id !in gone {
        assert SoundRetired(ledger.windows, ledger.retired[id]);
      }
    }
  }

  lemma ExpireFinals(ledger: Ledger, clock: nat, now: nat)
    requires Sound(ledger, clock)
    ensures Finals(ExpiredLeases(ledger.leases, now), ledger.leases)
  {
    forall id | id in ExpiredLeases(ledger.leases, now)
      ensures ledger.leases[id].consumedTotal <= ledger.leases[id].reservedAmount
    {
      assert SoundLease(ledger.windows, ledger.leases[id], clock);
    }
  }

  lemma SoundLater(ledger: Ledger, clock: nat, now: nat)
    requires Sound(ledger, clock) && clock <= now
    ensures Sound(ledger, now)
  {
    forall id | id in ledger.leases
      ensures SoundLease(ledger.windows, ledger.leases[id], now)
    {
      assert SoundLease(ledger.windows, ledger.leases[id], clock);
    }
  }

  lemma ExpireKeepsSound(ledger: Ledger, clock: nat, now: nat)
    requires Sound(ledger, clock) && clock <= now
    ensures Sound(Expire(ledger, now), now)
    ensures forall id :: id in Expire(ledger, now).leases ==> ledger.leases[id].expiresAt > now
    ensures Expire(ledger, now).leases.Keys + Expire(ledger, now).retired.Keys
        == ledger.leases.Keys + ledger.retired.Keys
  {
    ExpireFinals(ledger, clock, now);
    SoundLater(ledger, clock, now);
    RetireKeepsSound(ledger, ExpiredLeases(ledger.leases, now), now);
  }

  lemma ExpireKeepsBooks(ledger: Ledger, clock: nat, now: nat, limits: Limits)
    requires Sound(ledger, clock) && Books(ledger, limits)
    ensures Books(Expire(ledger, now), limits)
  {
    ExpireFinals(ledger, clock, now);
    RetireKeepsBooks(ledger, ExpiredLeases(ledger.leases, now), limits);
    SameBooks(Retire(ledger, ExpiredLeases(ledger.leases, now)), Expire(ledger, now), limits);
  }

  /** The books do not read the retry records. */
  lemma SameBooks(a: Ledger, b: Ledger, limits: Limits)
    requires a.windows == b.windows && a.concurrency == b.concurrency && a.leases == b.leases && a.retired == b.retired
    requires Books(a, limits)
    ensures Books(b, limits)
  {
    forall key | key in b.windows
      ensures WindowBalanced(b, key)
    {
      assert WindowBalanced(a, key);
    }
    forall slot
      ensures Occupied(b.concurrency, slot) == Total(b.leases, Occupying(slot))
    {
      assert Occupied(a.concurrency, slot) == Total(a.leases, Occupying(slot));
    }
  }

  /** Nothing in the ledger has expired by `now`. */
  ghost predicate Fresh(ledger: Ledger, now: nat) {
    && (forall id :: id in ledger.leases ==> ledger.leases[id].expiresAt > now)
    && (forall id :: id in ledger.completed ==> ledger.completed[id].expiresAt > now)
    && (forall key :: key in ledger.windows ==> ledger.windows[key].committed <= U32_MAX)
  }

  /** Cleaning up twice at the same time is cleaning up once. */
  lemma FreshIsFixed(ledger: Ledger, now: nat)
    requires Fresh(ledger, now)
    ensures Expire(ledger, now) == ledger
  {
    assert ExpiredLeases(ledger.leases, now) == map[];
    assert SettledWindows(ledger.windows, map[]) == ledger.windows;
    assert RetainedRecords(ledger.completed, now) == ledger.completed;
  }

  lemma ExpireIsFresh(ledger: Ledger, now: nat)
    ensures Fresh(Expire(ledger, now), now)
  {
  }

  // ---------- update and finish ----------

  function Revalued(ledger: Ledger, id: LeaseId, consumedTotal: nat, sequence: nat): Ledger
    requires id in ledger.leases
  {
    ledger.(leases := ledger.leases[id := ledger.leases[id].(consumedTotal := consumedTotal, sequence := sequence)])
  }

  lemma RevalueKeepsSound(ledger: Ledger, id: LeaseId, consumedTotal: nat, sequence: nat, clock: nat)
    requires Sound(ledger, clock) && id in ledger.leases
    requires consumedTotal <= ledger.leases[id].reservedAmount
    ensures Sound(Revalued(ledger, id, consumedTotal, sequence), clock)
  {
    var after := Revalued(ledger, id, consumedTotal, sequence);
    forall other | other in after.leases
      ensures SoundLease(after.windows, after.leases[other], clock)
    {
      assert SoundLease(ledger.windows, ledger.leases[other], clock);
    }
  }

  /** Reporting consumption moves nothing: the amount stays reserved until the lease is settled. */
  lemma RevalueKeepsBooks(ledger: Ledger, id: LeaseId, consumedTotal: nat, sequence: nat, limits: Limits)
    requires id in ledger.leases && Books(ledger, limits)
    ensures Books(Revalued(ledger, id, consumedTotal, sequence), limits)
  {
    var after := Revalued(ledger, id, consumedTotal, sequence);
    forall key | key in after.windows
      ensures WindowBalanced(after, key)
    {
      assert WindowBalanced(ledger, key);
      TotalSameWeights(ledger.leases, after.leases, Held(key, ledger.windows[key].generation));
    }
    forall slot
      ensures Occupied(after.concurrency, slot) == Total(after.leases, Occupying(slot))
    {
      assert Occupied(ledger.concurrency, slot) == Total(ledger.leases, Occupying(slot));
      TotalSameWeights(ledger.leases, after.leases, Occupying(slot));
    }
  }

  lemma UpdateKeepsSound(before: Ledger, id: LeaseId, consumedTotal: nat, sequence: nat, clock: nat, now: nat)
    requires Sound(before, clock) && clock <= now
    ensures Sound(Update(before, id, consumedTotal, sequence, now).0, now)
  {
    var ledger := Expire(before, now);
    ExpireKeepsSound(before, clock, now);
    if id in ledger.leases && Validate(ledger.leases[id], consumedTotal, sequence).Ok? {
      RevalueKeepsSound(ledger, id, consumedTotal, sequence, now);
    }
  }

  lemma UpdateKeepsBooks(
      before: Ledger, id: LeaseId, consumedTotal: nat, sequence: nat, clock: nat, now: nat, limits: Limits)
    requires Sound(before, clock) && Books(before, limits)
    ensures Books(Update(before, id, consumedTotal, sequence, now).0, limits)
  {
    var ledger := Expire(before, now);
    ExpireKeepsBooks(before, clock, now, limits);
    if id in ledger.leases && Validate(ledger.leases[id], consumedTotal, sequence).Ok? {
      RevalueKeepsBooks(ledger, id, consumedTotal, sequence, limits);
    }
  }

  lemma SettleKeepsSound(ledger: Ledger, id: LeaseId, consumedTotal: nat, sequence: nat, now: nat)
    requires Sound(ledger, now) && id in ledger.leases && consumedTotal <= ledger.leases[id].reservedAmount
    ensures Sound(Settle(ledger, id, consumedTotal, sequence, now), now)
  {
    var gone := map[id := ledger.leases[id].(consumedTotal := consumedTotal)];
    RetireKeepsSound(ledger, gone, now);
    RecordKeepsSound(Retire(ledger, gone), id, CompletedLease(consumedTotal, sequence, now + RETENTION), now);
  }

  lemma RecordKeepsSound(ledger: Ledger, id: LeaseId, record: CompletedLease, clock: nat)
    requires Sound(ledger, clock)
    requires id in ledger.retired && ledger.retired[id].consumedTotal == record.consumedTotal
    ensures Sound(ledger.(completed := ledger.completed[id := record]), clock)
  {
  }

  lemma SettleKeepsBooks(ledger: Ledger, id: LeaseId, consumedTotal: nat, sequence: nat, now: nat, limits: Limits)
    requires Sound(ledger, now) && id in ledger.leases && consumedTotal <= ledger.leases[id].reservedAmount
    requires Books(ledger, limits)
    ensures Books(Settle(ledger, id, consumedTotal, sequence, now), limits)
  {
    var gone := map[id := ledger.leases[id].(consumedTotal := consumedTotal)];
    RetireKeepsBooks(ledger, gone, limits);
    SameBooks(Retire(ledger, gone), Settle(ledger, id, consumedTotal, sequence, now), limits);
  }

  lemma FinishKeepsSound(before: Ledger, id: LeaseId, consumedTotal: nat, sequence: nat, clock: nat, now: nat)
    requires Sound(before, clock) && clock <= now
    ensures Sound(Finish(before, id, consumedTotal, sequence, now).0, now)
  {
    var ledger := Expire(before, now);
    ExpireKeepsSound(before, clock, now);
    if id in ledger.leases && Validate(ledger.leases[id], consumedTotal, sequence).Ok? {
      SettleKeepsSound(ledger, id, consumedTotal, sequence, now);
    }
  }

  lemma FinishKeepsBooks(
      before: Ledger, id: LeaseId, consumedTotal: nat, sequence: nat, clock: nat, now: nat, limits: Limits)
    requires Sound(before, clock) && clock <= now && Books(before, limits)
    ensures Books(Finish(before, id, consumedTotal, sequence, now).0, limits)
  {
    var ledger := Expire(before, now);
    ExpireKeepsSound(before, clock, now);
    ExpireKeepsBooks(before, clock, now, limits);
    if id in ledger.leases && Validate(ledger.leases[id], consumedTotal, sequence).Ok? {
      SettleKeepsBooks(ledger, id, consumedTotal, sequence, now, limits);
    }
  }
}
