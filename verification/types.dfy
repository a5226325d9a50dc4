/** The records of pkg/types.go, with float64 abstracted to real and the
    channel of parcels abstracted to the FIFO sequence it buffers. */
module Types {
  import opened Wrappers

  /** Hours per year: the length of every profile and hourly vector. */
  const Hrs: nat := 8760

  /** Number of circuit-group slots, and capacity of the dispatch queue. */
  const Cnt: nat := 1752

  /** An hourly allocation curve for one usetype. */
  datatype Profile = Profile(ProfileUsetype: string, HourlyFraction: seq<real>)

  /** One land parcel, already scrubbed when it was loaded. */
  datatype Parcel = Parcel(
    ParcelID: string,
    ParcelUsetype: string,
    CircuitGroupID: string,
    AnnualSupply: real,
    AnnualDemand: real)

  /** One circuit group. `Parcels` holds what is currently buffered in the
      group's parcel channel, oldest first; the channel's capacity is
      `ParcelCount`. */
  datatype CircuitGroup = CircuitGroup(
    CircuitGroupID: string,
    ParcelCount: nat,
    Parcels: seq<Parcel>,
    HourlyNetSupply: seq<real>,
    AnnualNetSupply: real,
    MaxHourlyNetSupply: real)

  /** The usetype -> profile store; a value here, a sync.Map in the source. */
  type ProfileMap = map<string, Profile>

  /** The circuit-group pool: one slot per group index, None for a nil pointer. */
  type Pool = seq<Option<CircuitGroup>>

  /** No group's channel holds more than its capacity. */
  ghost predicate BuffersWithinCount(pool: Pool) {
    forall s :: 0 <= s < |pool| && pool[s].Some? ==> |pool[s].value.Parcels| <= pool[s].value.ParcelCount
  }

  /** Every profile in the store spans the given number of hours. */
  ghost predicate ProfilesSpan(profiles: ProfileMap, hours: nat) {
    forall u :: u in profiles ==> |profiles[u].HourlyFraction| == hours
  }
}
