/** The local quota counter as mathematics: its state and, for every operation, the state it
    must produce. Everything is stated key by key, so no iteration order of the source's hash
    maps can matter. */
module QuotaLedger {
  import opened QuotaTypes

  /** The counter key of a tumbling window. `dimension` stands for the part of the key text
      that one request and trigger fix; the rest of the text is the window length. */
  datatype WindowKey = WindowKey(dimension: string, seconds: nat)

  /** `generation` counts the rollovers of the window; the source stores `Wrapped(generation)`. */
  datatype QuotaWindow = QuotaWindow(startedAt: nat, generation: nat, committed: nat, reserved: nat)

  datatype Reservation = Reservation(key: WindowKey, generation: nat)

  type LeaseId = string

  datatype LocalLease = LocalLease(
    accounting: Accounting, reservedAmount: nat, consumedTotal: nat, sequence: nat,
    expiresAt: nat, windows: seq<Reservation>, concurrencyKey: Option<string>)

  datatype CompletedLease = CompletedLease(consumedTotal: nat, sequence: nat, expiresAt: nat)

  /** The four maps of the source, and `retired`: every lease ever settled, with its final
      total. Nothing the source computes reads `retired`. */
  datatype Ledger = Ledger(
    windows: map<WindowKey, QuotaWindow>,
    concurrency: map<string, nat>,
    leases: map<LeaseId, LocalLease>,
    completed: map<LeaseId, CompletedLease>,
    retired: map<LeaseId, LocalLease>)

  const EMPTY: Ledger := Ledger(map[], map[], map[], map[], map[])

  // ---------- sums over sets of leases ----------

  /** What a sum over leases can measure: amounts still reserved in one generation of a window,
      final totals spent in it, or slots occupied under a concurrency key. */
  datatype Measure =
    | Held(key: WindowKey, generation: nat)
    | Spent(key: WindowKey, generation: nat)
    | Occupying(slot: string)

  /** `amount` once for every reservation of `rs` in generation `generation` of `key`. */
  function Charge(rs: seq<Reservation>, key: WindowKey, generation: nat, amount: nat): nat {
    if rs == [] then 0
    else
      (if rs[|rs| - 1] == Reservation(key, generation) then amount else 0)
      + Charge(rs[..|rs| - 1], key, generation, amount)
  }

  function Weight(measure: Measure, lease: LocalLease): nat {
    match measure
    case Held(key, generation) =>
      if lease.accounting.Consumable? then Charge(lease.windows, key, generation, lease.reservedAmount) else 0
    case Spent(key, generation) =>
      if lease.accounting.Consumable? then Charge(lease.windows, key, generation, lease.consumedTotal) else 0
    case Occupying(slot) =>
      if lease.accounting.Occupancy? && lease.concurrencyKey == Some(slot) then lease.reservedAmount else 0
  }

  ghost function Total(leases: map<LeaseId, LocalLease>, measure: Measure): nat
    decreases |leases|
  {
    if leases == map[] then 0
    else
      var id :| id in leases;
      assert (leases - {id}).Keys == leases.Keys - {id};
      Weight(measure, leases[id]) + Total(leases - {id}, measure)
  }

  // ---------- settling leases ----------

  ghost function SettledWindow(key: WindowKey, window: QuotaWindow, gone: map<LeaseId, LocalLease>): QuotaWindow {
    window.(
      reserved := SatSub(window.reserved, Total(gone, Held(key, window.generation))),
      committed := SatAdd(window.committed, Total(gone, Spent(key, window.generation))))
  }

  ghost function SettledWindows(windows: map<WindowKey, QuotaWindow>, gone: map<LeaseId, LocalLease>)
    : map<WindowKey, QuotaWindow>
  {
    map key | key in windows :: SettledWindow(key, windows[key], gone)
  }

  /** A key whose occupancy drops to zero is removed; a key nobody releases stays as it is. */
  ghost function SettledConcurrency(concurrency: map<string, nat>, gone: map<LeaseId, LocalLease>): map<string, nat> {
    map slot | slot in concurrency
               && (Total(gone, Occupying(slot)) == 0 || concurrency[slot] > Total(gone, Occupying(slot)))
      :: SatSub(concurrency[slot], Total(gone, Occupying(slot)))
  }

  /** The ledger after the leases `gone`, carrying their final totals, are settled. */
  ghost function Retire(ledger: Ledger, gone: map<LeaseId, LocalLease>): Ledger {
    Ledger(
      SettledWindows(ledger.windows, gone),
      SettledConcurrency(ledger.concurrency, gone),
      ledger.leases - gone.Keys,
      ledger.completed,
      ledger.retired + gone)
  }

  function ExpiredLeases(leases: map<LeaseId, LocalLease>, now: nat): map<LeaseId, LocalLease> {
    map id | id in leases && leases[id].expiresAt <= now :: leases[id]
  }

  function RetainedRecords(completed: map<LeaseId, CompletedLease>, now: nat): map<LeaseId, CompletedLease> {
    map id | id in completed && completed[id].expiresAt > now :: completed[id]
  }

  /** What every operation does first: settle expired leases and drop stale records. */
  ghost function Expire(ledger: Ledger, now: nat): Ledger {
    Retire(ledger, ExpiredLeases(ledger.leases, now)).(completed := RetainedRecords(ledger.completed, now))
  }

  // ---------- update and finish ----------

  function Validate(lease: LocalLease, consumedTotal: nat, sequence: nat): Result<()> {
    if sequence != (if lease.sequence >= U64_MAX then U64_MAX else lease.sequence + 1) then Err(InvalidState)
    else if consumedTotal < lease.consumedTotal || consumedTotal > lease.reservedAmount then Err(ApiInvalidArgument)
    else Ok(())
  }

  ghost function Update(
      before: Ledger, id: LeaseId, consumedTotal: nat, sequence: nat, now: nat): (Ledger, Result<()>) {
    var ledger := Expire(before, now);
    if id !in ledger.leases then (ledger, Err(InvalidState))
    else
      var lease := ledger.leases[id];
      if sequence == lease.sequence && consumedTotal == lease.consumedTotal then (ledger, Ok(()))
      else if Validate(lease, consumedTotal, sequence).Err? then (ledger, Validate(lease, consumedTotal, sequence))
      else
        (ledger.(leases := ledger.leases[id := lease.(consumedTotal := consumedTotal, sequence := sequence)]), Ok(()))
  }

  /** A live lease settled with its final total, and the record that answers a retry. */
  ghost function Settle(ledger: Ledger, id: LeaseId, consumedTotal: nat, sequence: nat, now: nat): Ledger
    requires id in ledger.leases
  {
    var settled := Retire(ledger, map[id := ledger.leases[id].(consumedTotal := consumedTotal)]);
    settled.(completed := settled.completed[id := CompletedLease(consumedTotal, sequence, now + RETENTION)])
  }

  ghost function Finish(
      before: Ledger, id: LeaseId, consumedTotal: nat, sequence: nat, now: nat): (Ledger, Result<()>) {
    var ledger := Expire(before, now);
    if id in ledger.completed
       && ledger.completed[id].sequence == sequence && ledger.completed[id].consumedTotal == consumedTotal
    then (ledger, Ok(()))
    else if id !in ledger.leases then (ledger, Err(InvalidState))
    else
      var lease := ledger.leases[id];
      if Validate(lease, consumedTotal, sequence).Err? then (ledger, Validate(lease, consumedTotal, sequence))
      else (Settle(ledger, id, consumedTotal, sequence, now), Ok(()))
  }

  // ---------- reserve ----------

  datatype TriggerResource = Qps | Token | Concurrency | Other

  /** `seconds` is the configured window length, absent or out of range as the wire allows. */
  datatype Amount = Amount(maxAmount: nat, seconds: Option<int>)

  /** The parts of a limit trigger that reserving reads. The two dimensions are what the key
      builders make of the request and the trigger. */
  datatype Trigger = Trigger(
    resource: TriggerResource, amounts: seq<Amount>, concurrencyMax: Option<nat>,
    dimension: string, slot: string)

  datatype Ask = Ask(key: WindowKey, maxAmount: nat)

  function AmountSeconds(amount: Amount): (seconds: nat)
    ensures seconds >= 1
  {
    match amount.seconds
    case None => 1
    case Some(s) => if s < 1 then 1 else s
  }

  /** The windows a trigger asks for: one per positive amount, in configuration order. */
  function Asks(dimension: string, amounts: seq<Amount>): seq<Ask> {
    if amounts == [] then []
    else
      var rest := Asks(dimension, amounts[..|amounts| - 1]);
      var last := amounts[|amounts| - 1];
      if last.maxAmount > 0 then rest + [Ask(WindowKey(dimension, AmountSeconds(last)), last.maxAmount)] else rest
  }

  /** The window as it is found at `now`: created when missing, rolled over when too old. */
  function Touched(windows: map<WindowKey, QuotaWindow>, key: WindowKey, now: nat): QuotaWindow {
    if key !in windows then QuotaWindow(now, 0, 0, 0)
    else if SatSub(now, windows[key].startedAt) >= key.seconds * SECOND
    then QuotaWindow(now, windows[key].generation + 1, 0, 0)
    else windows[key]
  }

  predicate Fits(windows: map<WindowKey, QuotaWindow>, ask: Ask, amount: nat, now: nat) {
    var window := Touched(windows, ask.key, now);
    SatAdd(SatAdd(window.committed, window.reserved), amount) <= ask.maxAmount
  }

  /** How many asks are looked at before the first one that does not fit. */
  function Refusal(windows: map<WindowKey, QuotaWindow>, asks: seq<Ask>, amount: nat, now: nat): (index: nat)
    ensures index <= |asks|
    ensures forall i :: 0 <= i < index ==> Fits(windows, asks[i], amount, now)
    ensures index < |asks| ==> !Fits(windows, asks[index], amount, now)
    decreases |asks|
  {
    if asks == [] then 0
    else if !Fits(windows, asks[0], amount, now) then 0
    else 1 + Refusal(windows, asks[1..], amount, now)
  }

  function KeysOf(asks: seq<Ask>): set<WindowKey> {
    set i | 0 <= i < |asks| :: asks[i].key
  }

  function TouchAll(windows: map<WindowKey, QuotaWindow>, keys: set<WindowKey>, now: nat): map<WindowKey, QuotaWindow> {
    map key | key in windows.Keys + keys :: if key in keys then Touched(windows, key, now) else windows[key]
  }

  function ReservationsOf(windows: map<WindowKey, QuotaWindow>, asks: seq<Ask>, now: nat): (rs: seq<Reservation>)
    ensures |rs| == |asks|
  {
    seq(|asks|, i requires 0 <= i < |asks| => Reservation(asks[i].key, Touched(windows, asks[i].key, now).generation))
  }

  /** Adds `amount` to the reserved count of a window once per reservation that names it. */
  function Charged(
      windows: map<WindowKey, QuotaWindow>, rs: seq<Reservation>, amount: nat): map<WindowKey, QuotaWindow> {
    map key | key in windows ::
      windows[key].(reserved := WrapAdd(windows[key].reserved, Charge(rs, key, windows[key].generation, amount)))
  }

  datatype ReserveOutcome = Reserved | Rejected | NotConfigured | Unrepresentable

  function InitialConsumedTotal(trigger: Trigger): nat {
    if trigger.resource.Qps? then 1 else 0
  }

  /** `deadline` is now plus the lease's time to live, or None when the clock cannot hold it. */
  ghost function Reserve(before: Ledger, trigger: Trigger, amount: nat, deadline: Option<nat>, id: LeaseId, now: nat)
    : (Ledger, ReserveOutcome)
  {
    var ledger := Expire(before, now);
    if deadline.None? then (ledger, Unrepresentable)
    else
      match trigger.resource
      case Qps => ReserveWindows(ledger, trigger, amount, deadline.value, id, now)
      case Token => ReserveWindows(ledger, trigger, amount, deadline.value, id, now)
      case Concurrency => ReserveSlots(ledger, trigger, amount, deadline.value, id)
      case Other => (ledger, NotConfigured)
  }

  function WindowLease(trigger: Trigger, amount: nat, expiresAt: nat, rs: seq<Reservation>): LocalLease {
    LocalLease(Consumable, amount, InitialConsumedTotal(trigger), 0, expiresAt, rs, None)
  }

  function SlotLease(trigger: Trigger, amount: nat, expiresAt: nat): LocalLease {
    LocalLease(Occupancy, amount, 0, 0, expiresAt, [], Some(trigger.slot))
  }

  function ReserveWindows(ledger: Ledger, trigger: Trigger, amount: nat, expiresAt: nat, id: LeaseId, now: nat)
    : (Ledger, ReserveOutcome)
  {
    var asks := Asks(trigger.dimension, trigger.amounts);
    var stop := Refusal(ledger.windows, asks, amount, now);
    if asks == [] then (ledger, NotConfigured)
    else if stop < |asks| then
      (ledger.(windows := TouchAll(ledger.windows, KeysOf(asks[..stop + 1]), now)), Rejected)
    else
      var rs := ReservationsOf(ledger.windows, asks, now);
      (Admitted(ledger, KeysOf(asks), id, WindowLease(trigger, amount, expiresAt, rs), now), Reserved)
  }

  /** The windows `keys` touched, and the amount of the new lease reserved in each of its windows. */
  function Admitted(ledger: Ledger, keys: set<WindowKey>, id: LeaseId, lease: LocalLease, now: nat): Ledger {
    ledger.(
      windows := Charged(TouchAll(ledger.windows, keys, now), lease.windows, lease.reservedAmount),
      leases := ledger.leases[id := lease])
  }

  function ReserveSlots(ledger: Ledger, trigger: Trigger, amount: nat, expiresAt: nat, id: LeaseId)
    : (Ledger, ReserveOutcome)
  {
    if trigger.concurrencyMax.None? || trigger.concurrencyMax.value == 0 then (ledger, NotConfigured)
    else
      var occupied := if trigger.slot in ledger.concurrency then ledger.concurrency[trigger.slot] else 0;
      if SatAdd(occupied, amount) > trigger.concurrencyMax.value then
        (ledger.(concurrency := ledger.concurrency[trigger.slot := occupied]), Rejected)
      else
        (ledger.(
          concurrency := ledger.concurrency[trigger.slot := WrapAdd(occupied, amount)],
          leases := ledger.leases[id := SlotLease(trigger, amount, expiresAt)]), Reserved)
  }
}
