/**
  `SupplierJodaClock`: a Joda clock that asks a supplier for the instant on every
  call. The supplier is shared by reference, so what each supplier would hand back at
  the moment of a call is an input (`Suppliers`).
 */
module SupplierJodaClock {
  import opened Time
  import JodaClock

  /** A supplier object, identified by an opaque number. */
  type SupplierRef = nat

  /** What each supplier would hand back if called now. */
  type Suppliers = SupplierRef -> JodaInstant

  datatype SupplierJodaClock = SupplierJodaClock(supplier: SupplierRef, zone: DateTimeZone)

  /** `utc(supplier)`: a clock over the supplier in Joda's UTC. */
  function Utc(supplier: SupplierRef): (c: SupplierJodaClock)
    ensures GetDateTimeZone(c) == JodaUTC
    ensures forall env: Suppliers :: Now(c, env) == env(supplier)
  {
    SupplierJodaClock(supplier, JodaUTC)
  }

  /** `now()`: the supplier's current value, passed through unchecked. */
  function Now(c: SupplierJodaClock, env: Suppliers): JodaInstant {
    env(c.supplier)
  }

  function GetDateTimeZone(c: SupplierJodaClock): DateTimeZone {
    c.zone
  }

  /** What the clock answers; `millis()` is inherited, so it agrees with `now()`. */
  function Reading(c: SupplierJodaClock, env: Suppliers): (r: JodaClock.JodaReading)
    ensures JodaClock.Consistent(r) && r.now == env(c.supplier) && r.zone == GetDateTimeZone(c)
  {
    JodaClock.DefaultReading(Now(c, env), c.zone)
  }

  /** `withZone`: the clock itself for its own zone, otherwise a new clock over the
      same supplier in the requested zone. */
  function WithZone(c: SupplierJodaClock, newZone: DateTimeZone): (r: Derived<SupplierJodaClock>)
    ensures r.Same? <==> newZone == GetDateTimeZone(c)
    ensures GetDateTimeZone(Resolve(c, r)) == newZone
    ensures forall env: Suppliers :: Now(Resolve(c, r), env) == Now(c, env)
  {
    if newZone == c.zone then Same else Created(SupplierJodaClock(c.supplier, newZone))
  }

  /** The Joda `withUTC()` of a supplier clock in UTC is the clock itself, and of any
      other is a UTC clock over the same supplier. */
  lemma WithUTCOfSupplierClock(c: SupplierJodaClock)
    ensures JodaClock.WithUTC((z: DateTimeZone) => WithZone(c, z)).Same? <==> GetDateTimeZone(c) == JodaUTC
    ensures Resolve(c, JodaClock.WithUTC((z: DateTimeZone) => WithZone(c, z))) == Utc(c.supplier)
  {
  }
}
