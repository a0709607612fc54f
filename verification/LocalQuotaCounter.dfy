/** The local quota counter as the program runs it: four maps changed in place, loop by loop.
    Each method is proved to produce the state its specification in `QuotaLedger` names. */
module LocalQuotaCounters {
  import opened QuotaTypes
  import opened QuotaLedger
  import opened LedgerSums
  import opened LedgerLaws
  import opened ReserveLaws
  import CounterRules

  /** The counters fit the 32-bit fields that hold them. */
  predicate FitsWidth(windows: map<WindowKey, QuotaWindow>) {
    forall key :: key in windows ==> windows[key].committed <= U32_MAX && windows[key].reserved <= U32_MAX
  }

  /** The windows after the reservations `rs` are settled one by one. */
  function Discharged(windows: map<WindowKey, QuotaWindow>, rs: seq<Reservation>, held: nat, spent: nat)
    : map<WindowKey, QuotaWindow>
  {
    map key | key in windows ::
      windows[key].(
        reserved := SatSub(windows[key].reserved, Charge(rs, key, windows[key].generation, held)),
        committed := SatAdd(windows[key].committed, Charge(rs, key, windows[key].generation, spent)))
  }

  lemma DischargeOne(windows: map<WindowKey, QuotaWindow>, rs: seq<Reservation>, i: nat, held: nat, spent: nat)
    requires i < |rs| && rs[i].key in windows
    requires FitsWidth(windows)
    ensures var before := Discharged(windows, rs[..i], held, spent);
            var window := before[rs[i].key];
            Discharged(windows, rs[..i + 1], held, spent)
            == if window.generation == rs[i].generation
               then before[rs[i].key := window.(
                      reserved := SatSub(window.reserved, held), committed := SatAdd(window.committed, spent))]
               else before
  {
    assert rs[..i + 1][..i] == rs[..i];
  }

  lemma DischargedIsSettled(windows: map<WindowKey, QuotaWindow>, id: LeaseId, lease: LocalLease)
    requires FitsWidth(windows)
    ensures SettledWindows(windows, map[id := lease])
            == if lease.accounting.Consumable?
               then Discharged(windows, lease.windows, lease.reservedAmount, lease.consumedTotal)
               else windows
  {
    forall key | key in windows
      ensures Total(map[id := lease], Held(key, windows[key].generation))
          == Weight(Held(key, windows[key].generation), lease)
      ensures Total(map[id := lease], Spent(key, windows[key].generation))
          == Weight(Spent(key, windows[key].generation), lease)
    {
      TotalSingle(id, lease, Held(key, windows[key].generation));
      TotalSingle(id, lease, Spent(key, windows[key].generation));
    }
  }

  lemma SettledSlots(concurrency: map<string, nat>, id: LeaseId, lease: LocalLease)
    requires lease.reservedAmount > 0
    ensures var settled := SettledConcurrency(concurrency, map[id := lease]);
            if lease.accounting.Occupancy? && lease.concurrencyKey.Some? && lease.concurrencyKey.value in concurrency
            then
              var slot := lease.concurrencyKey.value;
              if concurrency[slot] > lease.reservedAmount
              then settled == concurrency[slot := concurrency[slot] - lease.reservedAmount]
              else settled == concurrency - {slot}
            else settled == concurrency
  {
    forall slot
      ensures Total(map[id := lease], Occupying(slot)) == Weight(Occupying(slot), lease)
    {
      TotalSingle(id, lease, Occupying(slot));
    }
  }

  /** Settling one more lease after others is settling them all: the order does not matter. */
  lemma RetireOneMore(ledger: Ledger, done: map<LeaseId, LocalLease>, id: LeaseId, lease: LocalLease)
    requires id !in done
    ensures Retire(Retire(ledger, done), map[id := lease]) == Retire(ledger, done[id := lease])
  {
    assert done + map[id := lease] == done[id := lease];
    RetireUnion(ledger, done, map[id := lease], done[id := lease]);
  }

  lemma RetireNone(ledger: Ledger)
    requires FitsWidth(ledger.windows)
    ensures Retire(ledger, map[]) == ledger
  {
    assert SettledWindows(ledger.windows, map[]) == ledger.windows;
    assert SettledConcurrency(ledger.concurrency, map[]) == ledger.concurrency;
    assert ledger.leases - {} == ledger.leases && ledger.retired + map[] == ledger.retired;
  }

  lemma WrapTwice(a: nat, b: nat, c: nat)
    ensures WrapAdd(WrapAdd(a, b), c) == WrapAdd(a, b + c)
  {
    assert U32_MAX + 1 == 0x1_0000_0000;
    assert ((a + b) % 0x1_0000_0000 + c) % 0x1_0000_0000 == (a + b + c) % 0x1_0000_0000;
  }

  lemma TouchedAgain(windows: map<WindowKey, QuotaWindow>, keys: set<WindowKey>, key: WindowKey, now: nat)
    requires key.seconds >= 1
    ensures Touched(TouchAll(windows, keys, now), key, now) == Touched(windows, key, now)
    ensures TouchAll(windows, keys, now)[key := Touched(windows, key, now)] == TouchAll(windows, keys + {key}, now)
  {
  }

  lemma WithinReservation(ledger: Ledger, id: LeaseId, clock: nat)
    requires Sound(ledger, clock) && id in ledger.leases
    ensures ledger.leases[id].consumedTotal <= ledger.leases[id].reservedAmount
  {
    assert SoundLease(ledger.windows, ledger.leases[id], clock);
  }

  lemma RetainKeepsSound(ledger: Ledger, now: nat)
    requires Sound(ledger, now)
    ensures Sound(ledger.(completed := RetainedRecords(ledger.completed, now)), now)
  {
  }

  lemma OneFewer<K, V>(all: map<K, V>, left: set<K>, id: K)
    requires id in left && id in all
    ensures id !in all - left
    ensures (all - left)[id := all[id]] == all - (left - {id})
  {
  }

  lemma NoneLeft<K, V>(all: map<K, V>)
    ensures all - all.Keys == map[] && all - {} == all
  {
  }

  /** One step of cleaning up, `left` being the expired leases not yet settled. */
  lemma RetireNext(start: Ledger, left: set<LeaseId>, id: LeaseId, now: nat)
    requires id in left && left <= ExpiredLeases(start.leases, now).Keys
    ensures var all := ExpiredLeases(start.leases, now);
            && id in start.leases
            && id in Retire(start, all - left).leases && Retire(start, all - left).leases[id] == start.leases[id]
            && Retire(Retire(start, all - left), map[id := start.leases[id]]) == Retire(start, all - (left - {id}))
  {
    var all := ExpiredLeases(start.leases, now);
    OneFewer(all, left, id);
    RetireOneMore(start, all - left, id, all[id]);
  }

  lemma KeysGrow(asks: seq<Ask>, i: nat)
    requires i < |asks|
    ensures KeysOf(asks[..i + 1]) == KeysOf(asks[..i]) + {asks[i].key}
  {
    forall key | key in KeysOf(asks[..i]) + {asks[i].key}
      ensures key in KeysOf(asks[..i + 1])
    {
      if key == asks[i].key {
        assert asks[..i + 1][i].key == key;
      } else {
        var j :| 0 <= j < i && asks[..i][j].key == key;
        assert asks[..i + 1][j].key == key;
      }
    }
  }

  lemma AdmitStep(windows: map<WindowKey, QuotaWindow>, asks: seq<Ask>, i: nat, now: nat)
    requires i < |asks| && asks[i].key.seconds >= 1
    ensures var key := asks[i].key;
            var before := TouchAll(windows, KeysOf(asks[..i]), now);
            && Touched(before, key, now) == Touched(windows, key, now)
            && before[key := Touched(windows, key, now)] == TouchAll(windows, KeysOf(asks[..i + 1]), now)
            && ReservationsOf(windows, asks[..i + 1], now)
               == ReservationsOf(windows, asks[..i], now) + [Reservation(key, Touched(windows, key, now).generation)]
  {
    TouchedAgain(windows, KeysOf(asks[..i]), asks[i].key, now);
    KeysGrow(asks, i);
  }

  lemma {:induction false} RefusalAt(
      windows: map<WindowKey, QuotaWindow>, asks: seq<Ask>, amount: nat, now: nat, i: nat)
    requires i <= |asks|
    requires forall j :: 0 <= j < i ==> Fits(windows, asks[j], amount, now)
    requires i < |asks| ==> !Fits(windows, asks[i], amount, now)
    ensures Refusal(windows, asks, amount, now) == i
  {
  }

  lemma AdmittedGenerations(windows: map<WindowKey, QuotaWindow>, asks: seq<Ask>, now: nat)
    ensures var touched := TouchAll(windows, KeysOf(asks), now);
            forall r :: r in ReservationsOf(windows, asks, now) ==>
              r.key in touched && touched[r.key].generation == r.generation
  {
    var rs := ReservationsOf(windows, asks, now);
    forall r | r in rs
      ensures r.key in KeysOf(asks) && r.generation == Touched(windows, r.key, now).generation
    {
      var i :| 0 <= i < |rs| && rs[i] == r;
      assert asks[i].key in KeysOf(asks);
    }
  }

  lemma TouchFitsWidth(windows: map<WindowKey, QuotaWindow>, keys: set<WindowKey>, now: nat)
    requires FitsWidth(windows)
    ensures FitsWidth(TouchAll(windows, keys, now))
  {
  }

  lemma ChargeOne(windows: map<WindowKey, QuotaWindow>, rs: seq<Reservation>, i: nat, amount: nat)
    requires i < |rs| && rs[i].key in windows && windows[rs[i].key].generation == rs[i].generation
    ensures var before := Charged(windows, rs[..i], amount);
            var window := before[rs[i].key];
            Charged(windows, rs[..i + 1], amount)
            == before[rs[i].key := window.(reserved := WrapAdd(window.reserved, amount))]
  {
    assert rs[..i + 1][..i] == rs[..i];
    var window := windows[rs[i].key];
    WrapTwice(window.reserved, Charge(rs[..i], rs[i].key, window.generation, amount), amount);
  }

  class LocalQuotaCounter {
    var windows: map<WindowKey, QuotaWindow>
    var concurrency: map<string, nat>
    var leases: map<LeaseId, LocalLease>
    var completed: map<LeaseId, CompletedLease>
    ghost var retired: map<LeaseId, LocalLease>
    ghost var clock: nat

    ghost function View(): Ledger
      reads this
    {
      Ledger(windows, concurrency, leases, completed, retired)
    }

    ghost predicate Valid()
      reads this
    {
      Sound(View(), clock) && FitsWidth(windows)
    }

    constructor ()
      ensures Valid() && View() == EMPTY && clock == 0
    {
      windows, concurrency, leases, completed, retired, clock := map[], map[], map[], map[], map[], 0;
    }

    /** Returns what `lease` reserved and did not spend to the windows it still belongs to. */
    method SettleWindows(lease: LocalLease)
      requires forall r :: r in lease.windows ==> SoundReservation(windows, r, lease.expiresAt)
      requires FitsWidth(windows)
      modifies this`windows
      ensures windows == Discharged(old(windows), lease.windows, lease.reservedAmount, lease.consumedTotal)
    {
      ghost var start := windows;
      for i := 0 to |lease.windows|
        invariant windows == Discharged(start, lease.windows[..i], lease.reservedAmount, lease.consumedTotal)
      {
        var r := lease.windows[i];
        assert r in lease.windows;
        WrappedComparisonIsExact(start, r, lease.expiresAt);
        DischargeOne(start, lease.windows, i, lease.reservedAmount, lease.consumedTotal);
        if r.key in windows {
          var window := windows[r.key];
          if Wrapped(window.generation) == Wrapped(r.generation) {
            windows := windows[r.key := window.(
              reserved := SatSub(window.reserved, lease.reservedAmount),
              committed := SatAdd(window.committed, lease.consumedTotal))];
          }
        }
      }
      assert lease.windows[..|lease.windows|] == lease.windows;
    }

    /** Releases what `lease` occupied; a slot nobody occupies is forgotten. */
    method ReleaseSlot(lease: LocalLease)
      modifies this`concurrency
      ensures if lease.concurrencyKey.Some? && lease.concurrencyKey.value in old(concurrency)
              then
                var slot := lease.concurrencyKey.value;
                if old(concurrency)[slot] > lease.reservedAmount
                then concurrency == old(concurrency)[slot := old(concurrency)[slot] - lease.reservedAmount]
                else concurrency == old(concurrency) - {slot}
              else concurrency == old(concurrency)
    {
      if lease.concurrencyKey.Some? && lease.concurrencyKey.value in concurrency {
        var slot := lease.concurrencyKey.value;
        var occupied := SatSub(concurrency[slot], lease.reservedAmount);
        concurrency := concurrency[slot := occupied];
        if occupied == 0 {
          concurrency := concurrency - {slot};
        }
      }
    }

    method SettleLocalLease(lease: LocalLease, ghost id: LeaseId)
      requires lease.reservedAmount > 0
      requires forall r :: r in lease.windows ==> SoundReservation(windows, r, lease.expiresAt)
      requires FitsWidth(windows)
      modifies this`windows, this`concurrency
      ensures windows == SettledWindows(old(windows), map[id := lease])
      ensures concurrency == SettledConcurrency(old(concurrency), map[id := lease])
    {
      DischargedIsSettled(windows, id, lease);
      SettledSlots(concurrency, id, lease);
      match lease.accounting {
        case Consumable => SettleWindows(lease);
        case Occupancy => ReleaseSlot(lease);
      }
    }

    /** Takes a lease out of the table and settles it with its final total. */
    method RetireLease(id: LeaseId, lease: LocalLease, ghost now: nat)
      requires Sound(View(), now) && id in leases
      requires lease == leases[id].(consumedTotal := lease.consumedTotal) && lease.consumedTotal <= lease.reservedAmount
      requires FitsWidth(windows)
      modifies this`windows, this`concurrency, this`leases, this`retired
      ensures View() == Retire(old(View()), map[id := lease]) && Sound(View(), now)
      ensures FitsWidth(windows)
    {
      assert SoundLease(windows, leases[id], now);
      RetireKeepsSound(View(), map[id := lease], now);
      leases := leases - {id};
      SettleLocalLease(lease, id);
      retired := retired + map[id := lease];
      assert map[id := lease].Keys == {id};
    }

    /** Settles the expired leases, in whatever order the set yields them. */
    method SettleExpired(expired: set<LeaseId>, ghost now: nat)
      requires Sound(View(), now) && expired == ExpiredLeases(leases, now).Keys
      requires FitsWidth(windows)
      modifies this`windows, this`concurrency, this`leases, this`retired
      ensures View() == Retire(old(View()), ExpiredLeases(old(leases), now)) && Sound(View(), now)
      ensures FitsWidth(windows)
    {
      ghost var start := View();
      ghost var all := ExpiredLeases(leases, now);
      RetireNone(start);
      NoneLeft(all);
      var left := expired;
      while left != {}
        invariant left <= all.Keys
        invariant View() == Retire(start, all - left) && Sound(View(), now)
        invariant FitsWidth(windows)
      {
        var id :| id in left;
        RetireNext(start, left, id, now);
        WithinReservation(View(), id, now);
        RetireLease(id, leases[id], now);
        left := left - {id};
      }
    }

    /** What every operation does first: leases whose time is up are settled as they last reported, and records
        that have lapsed are dropped. */
    method CleanupExpiredLeases(now: nat)
      requires Valid() && clock <= now
      modifies this
      ensures Valid() && clock == now && View() == Expire(old(View()), now)
      ensures forall id :: id in leases <==> id in old(leases) && now < old(leases)[id].expiresAt
      ensures forall id :: id in leases ==> leases[id] == old(leases)[id]
      ensures forall id :: id in completed <==> id in old(completed) && now < old(completed)[id].expiresAt
      ensures forall id :: id in completed ==> completed[id] == old(completed)[id]
    {
      SoundLater(View(), clock, now);
      SettleExpired(ExpiredLeases(leases, now).Keys, now);
      RetainKeepsSound(View(), now);
      completed := RetainedRecords(completed, now);
      clock := now;
    }

    method UpdateLease(id: LeaseId, consumedTotal: nat, sequence: nat, now: nat) returns (r: Result<()>)
      requires Valid() && clock <= now
      modifies this
      ensures Valid() && clock == now
      ensures (View(), r) == Update(old(View()), id, consumedTotal, sequence, now)
    {
      CleanupExpiredLeases(now);
      if id !in leases {
        return Err(InvalidState);
      }
      var lease := leases[id];
      if sequence == lease.sequence && consumedTotal == lease.consumedTotal {
        return Ok(());
      }
      r := Validate(lease, consumedTotal, sequence);
      if r.Ok? {
        RevalueKeepsSound(View(), id, consumedTotal, sequence, now);
        leases := leases[id := lease.(consumedTotal := consumedTotal, sequence := sequence)];
      }
    }

    method FinishLease(id: LeaseId, consumedTotal: nat, sequence: nat, now: nat) returns (r: Result<()>)
      requires Valid() && clock <= now
      modifies this
      ensures Valid() && clock == now
      ensures (View(), r) == Finish(old(View()), id, consumedTotal, sequence, now)
    {
      CleanupExpiredLeases(now);
      if id in completed {
        var record := completed[id];
        if record.sequence == sequence && record.consumedTotal == consumedTotal {
          return Ok(());
        }
      }
      if id !in leases {
        return Err(InvalidState);
      }
      r := Validate(leases[id], consumedTotal, sequence);
      if r.Ok? {
        SettleKeepsSound(View(), id, consumedTotal, sequence, now);
        RetireLease(id, leases[id].(consumedTotal := consumedTotal), now);
        completed := completed[id := CompletedLease(consumedTotal, sequence, now + RETENTION)];
      }
    }

    /** The window of `key`, created when missing and rolled over when its time is up. */
    method TouchWindow(key: WindowKey, now: nat) returns (window: QuotaWindow)
      requires key.seconds >= 1
      modifies this`windows
      ensures window == Touched(old(windows), key, now) && windows == old(windows)[key := window]
    {
      if key !in windows {
        windows := windows[key := QuotaWindow(now, 0, 0, 0)];
      }
      if SatSub(now, windows[key].startedAt) >= key.seconds * SECOND {
        windows := windows[key := QuotaWindow(now, windows[key].generation + 1, 0, 0)];
      }
      window := windows[key];
    }

    /** Finds room in every asked window, creating missing windows and rolling over old ones on
        the way; stops at the first window without room. */
    method AdmitWindows(asks: seq<Ask>, amount: nat, now: nat) returns (admitted: bool, rs: seq<Reservation>)
      requires forall ask :: ask in asks ==> ask.key.seconds >= 1
      modifies this`windows
      ensures admitted <==> Refusal(old(windows), asks, amount, now) == |asks|
      ensures admitted ==> rs == ReservationsOf(old(windows), asks, now)
      ensures var stop := Refusal(old(windows), asks, amount, now);
              windows == TouchAll(old(windows), KeysOf(if stop < |asks| then asks[..stop + 1] else asks), now)
    {
      ghost var start := windows;
      rs := [];
      assert KeysOf(asks[..0]) == {};
      for i := 0 to |asks|
        invariant windows == TouchAll(start, KeysOf(asks[..i]), now)
        invariant rs == ReservationsOf(start, asks[..i], now)
        invariant forall j :: 0 <= j < i ==> Fits(start, asks[j], amount, now)
      {
        var key := asks[i].key;
        assert asks[i] in asks;
        AdmitStep(start, asks, i, now);
        var window := TouchWindow(key, now);
        if SatAdd(SatAdd(window.committed, window.reserved), amount) > asks[i].maxAmount {
          RefusalAt(start, asks, amount, now, i);
          return false, [];
        }
        rs := rs + [Reservation(key, window.generation)];
      }
      admitted := true;
      RefusalAt(start, asks, amount, now, |asks|);
      assert asks[..|asks|] == asks;
    }

    /** Adds the amount to every reserved window. */
    method ChargeWindows(rs: seq<Reservation>, amount: nat)
      requires forall r :: r in rs ==> r.key in windows && windows[r.key].generation == r.generation
      requires FitsWidth(windows)
      modifies this`windows
      ensures windows == Charged(old(windows), rs, amount)
    {
      ghost var start := windows;
      for i := 0 to |rs|
        invariant windows == Charged(start, rs[..i], amount)
      {
        var key := rs[i].key;
        assert rs[i] in rs;
        ChargeOne(start, rs, i, amount);
        windows := windows[key := windows[key].(reserved := WrapAdd(windows[key].reserved, amount))];
      }
      assert rs[..|rs|] == rs;
    }

    method ReserveInWindows(trigger: Trigger, amount: nat, expiresAt: nat, id: LeaseId, now: nat)
      returns (outcome: ReserveOutcome)
      requires Valid() && clock == now && Admissible(View(), amount, Some(expiresAt), id, now)
      requires forall other :: other in leases ==> leases[other].expiresAt > now
      modifies this`windows, this`leases
      ensures Valid()
      ensures (View(), outcome) == ReserveWindows(old(View()), trigger, amount, expiresAt, id, now)
    {
      var asks := Asks(trigger.dimension, trigger.amounts);
      if asks == [] {
        return NotConfigured;
      }
      AsksAreWhole(trigger.dimension, trigger.amounts);
      OpenKeepsSound(View(), trigger, amount, expiresAt, id, now);
      ghost var start := View();
      ghost var stop := Refusal(windows, asks, amount, now);
      ghost var keys := KeysOf(if stop < |asks| then asks[..stop + 1] else asks);
      TouchFitsWidth(windows, keys, now);
      AdmittedGenerations(windows, asks, now);
      var admitted, rs := AdmitWindows(asks, amount, now);
      if !admitted {
        OpenRejects(start, trigger, amount, expiresAt, id, now);
        assert View() == TouchedLedger(start, keys, now);
        return Rejected;
      }
      OpenAdmits(start, trigger, amount, expiresAt, id, now);
      ChargeWindows(rs, amount);
      leases := leases[id := WindowLease(trigger, amount, expiresAt, rs)];
      assert View() == Admitted(start, keys, id, WindowLease(trigger, amount, expiresAt, rs), now);
      outcome := Reserved;
    }

    method ReserveSlot(trigger: Trigger, amount: nat, expiresAt: nat, id: LeaseId) returns (outcome: ReserveOutcome)
      requires Valid() && Admissible(View(), amount, Some(expiresAt), id, clock)
      modifies this`concurrency, this`leases
      ensures Valid()
      ensures (View(), outcome) == ReserveSlots(old(View()), trigger, amount, expiresAt, id)
    {
      OccupyKeepsSound(View(), trigger, amount, expiresAt, id, clock);
      if trigger.concurrencyMax.None? || trigger.concurrencyMax.value == 0 {
        return NotConfigured;
      }
      if trigger.slot !in concurrency {
        concurrency := concurrency[trigger.slot := 0];
      }
      var occupied := concurrency[trigger.slot];
      ghost var found := old(concurrency)[trigger.slot := occupied];
      assert concurrency == found;
      assert found[trigger.slot := WrapAdd(occupied, amount)]
        == old(concurrency)[trigger.slot := WrapAdd(occupied, amount)];
      if SatAdd(occupied, amount) > trigger.concurrencyMax.value {
        return Rejected;
      }
      concurrency := concurrency[trigger.slot := WrapAdd(occupied, amount)];
      leases := leases[id := SlotLease(trigger, amount, expiresAt)];
      outcome := Reserved;
    }

    method Reserve(trigger: Trigger, amount: nat, deadline: Option<nat>, id: LeaseId, now: nat)
      returns (outcome: ReserveOutcome)
      requires Valid() && clock <= now && Admissible(View(), amount, deadline, id, now)
      modifies this
      ensures Valid() && clock == now
      ensures (View(), outcome) == QuotaLedger.Reserve(old(View()), trigger, amount, deadline, id, now)
      ensures ReservesWindows(trigger) && deadline.Some? ==>
        outcome ==
          if !CounterRules.HasLimit(trigger) then NotConfigured
          else if forall i :: CounterRules.IsLimit(trigger, i) ==>
            CounterRules.LimitTakes(Expire(old(View()), now).windows, trigger, i, amount, now)
          then Reserved else Rejected
    {
      if ReservesWindows(trigger) && deadline.Some? {
        CounterRules.WindowsGrantIff(View(), trigger, amount, deadline.value, id, now);
      }
      ExpireKeepsSound(View(), clock, now);
      CleanupExpiredLeases(now);
      if deadline.None? {
        return Unrepresentable;
      }
      match trigger.resource {
        case Qps => outcome := ReserveInWindows(trigger, amount, deadline.value, id, now);
        case Token => outcome := ReserveInWindows(trigger, amount, deadline.value, id, now);
        case Concurrency => outcome := ReserveSlot(trigger, amount, deadline.value, id);
        case Other => outcome := NotConfigured;
      }
    }
  }
}
