/**
  `SupplierClock`: a java.time clock that asks a supplier for the instant on every
  call. The supplier is shared by reference, so what each supplier would hand back at
  the moment of a call is an input (`Suppliers`).
 */
module SupplierClock {
  import opened Time

  /** A supplier object, identified by an opaque number. */
  type SupplierRef = nat

  /** What each supplier would hand back if called now. */
  type Suppliers = SupplierRef -> Instant

  /** The constructor takes both values as given; it checks neither for null. */
  datatype SupplierClock = SupplierClock(supplier: SupplierRef, zone: ZoneId)

  /** `utc(supplier)`: a clock over the supplier in UTC. */
  function Utc(supplier: SupplierRef): (c: SupplierClock)
    ensures GetZone(c) == UTC
    ensures forall env: Suppliers :: ReadInstant(c, env) == env(supplier)
  {
    SupplierClock(supplier, UTC)
  }

  /** `instant()`: the supplier's current value, passed through unchecked. */
  function ReadInstant(c: SupplierClock, env: Suppliers): Instant {
    env(c.supplier)
  }

  function GetZone(c: SupplierClock): ZoneId {
    c.zone
  }

  /** The readings over a series of moments are exactly the supplier's values at those
      moments: repeated, decreasing, anything, with no ordering imposed. */
  function Readings(c: SupplierClock, moments: seq<Suppliers>): (r: seq<Instant>)
    ensures |r| == |moments|
    ensures forall k :: 0 <= k < |moments| ==> r[k] == moments[k](c.supplier)
    decreases |moments|
  {
    if |moments| == 0 then [] else [ReadInstant(c, moments[0])] + Readings(c, moments[1..])
  }

  /** Whatever values a supplier yields, in whatever order, the clock reads them back. */
  lemma {:induction false} PassesAnySeriesThrough(c: SupplierClock, values: seq<Instant>)
    ensures Readings(c, Constants(values)) == values
  {
    var r := Readings(c, Constants(values));
    assert |r| == |values|;
    forall k | 0 <= k < |values| ensures r[k] == values[k] {
      assert Constants(values)[k](c.supplier) == values[k];
    }
  }

  /** Suppliers that all hand back the k-th value at the k-th moment. */
  function Constants(values: seq<Instant>): (m: seq<Suppliers>)
    ensures |m| == |values|
    ensures forall k, s :: 0 <= k < |values| ==> m[k](s) == values[k]
  {
    seq(|values|, k requires 0 <= k < |values| => (s: SupplierRef) => values[k])
  }

  /** `withZone`: the clock itself for its own zone, otherwise a new clock over the
      same supplier in the requested zone. */
  function WithZone(c: SupplierClock, newZone: ZoneId): (r: Derived<SupplierClock>)
    ensures r.Same? <==> newZone == GetZone(c)
    ensures GetZone(Resolve(c, r)) == newZone
    ensures Resolve(c, r).supplier == c.supplier
  {
    if newZone == c.zone then Same else Created(SupplierClock(c.supplier, newZone))
  }

  /** A clock from `withZone` keeps following the supplier: at every later moment it
      reads what the original clock reads. */
  lemma WithZoneFollowsSupplier(c: SupplierClock, newZone: ZoneId, moments: seq<Suppliers>)
    ensures Readings(Resolve(c, WithZone(c, newZone)), moments) == Readings(c, moments)
  {
  }
}
