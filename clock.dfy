/** A reading of the local wall clock, as chrono's `Local::now()` exposes it. */
module Clock {

  datatype LocalTime = LocalTime(year: int, month: nat, day: nat, hour: nat, minute: nat)
}
