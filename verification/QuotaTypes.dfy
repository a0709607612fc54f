/** Values shared by the quota modules: results, fixed-width arithmetic and the
    public request types of src/traffic/ratelimit. */
module QuotaTypes {

  datatype Option<+T> = None | Some(value: T)

  datatype ErrorCode = InvalidState | ApiInvalidArgument | RequestLimit | NetworkError | InvalidResponse

  datatype Result<+T> = Ok(value: T) | Err(error: ErrorCode)

  const U32_MAX: nat := 0xFFFF_FFFF
  const U64_MAX: nat := 0xFFFF_FFFF_FFFF_FFFF

  /** Instants and durations are counted in nanoseconds. */
  const SECOND: nat := 1_000_000_000

  /** The longest lease `QuotaRequest::check_valid` lets through. */
  const MAX_TTL: nat := U32_MAX * SECOND

  /** How long the record of a finished lease is kept for retries. */
  const RETENTION: nat := 60 * SECOND

  /** `u32::saturating_add`. */
  function SatAdd(a: nat, b: nat): nat {
    if a + b > U32_MAX then U32_MAX else a + b
  }

  /** `u32::saturating_sub`. */
  function SatSub(a: nat, b: nat): nat {
    if a >= b then a - b else 0
  }

  /** `+=` on a `u32`, which wraps around in a release build. */
  function WrapAdd(a: nat, b: nat): nat {
    (a + b) % (U32_MAX + 1)
  }

  /** What a `u64` field that only ever grows by `wrapping_add(1)` stores after `n` steps. */
  function Wrapped(n: nat): nat {
    n % (U64_MAX + 1)
  }

  datatype QuotaResource = Qps | Token | Concurrency

  datatype QuotaAmount = QuotaAmount(resource: QuotaResource, amount: nat)

  datatype QuotaConsumption = QuotaConsumption(resource: QuotaResource, consumedTotal: nat)

  /** Whether a reservation is spent or merely occupied. */
  datatype Accounting = Consumable | Occupancy

  function TotalFor(consumptions: seq<QuotaConsumption>, resource: QuotaResource): Option<nat> {
    if consumptions == [] then None
    else if consumptions[0].resource == resource then Some(consumptions[0].consumedTotal)
    else TotalFor(consumptions[1..], resource)
  }

  function AmountFor(quotas: seq<QuotaAmount>, resource: QuotaResource): Option<nat> {
    if quotas == [] then None
    else if quotas[0].resource == resource then Some(quotas[0].amount)
    else AmountFor(quotas[1..], resource)
  }

  lemma SubsetOfSameSize<T>(a: set<T>, b: set<T>)
    requires a <= b && |b| <= |a|
    ensures a == b
  {
    assert |b - a| == |b| - |a|;
  }
}
