/** The constructors of pkg/generators.go (duplicated in pkg/main.go). */
module Generators {
  import opened Types
  import Sums

  /** A profile for usetype `pUse` whose hourly fractions are all zero. */
  function NewProfile(pUse: string): (p: Profile)
    ensures p.ProfileUsetype == pUse
    ensures |p.HourlyFraction| == Hrs
    ensures forall h :: 0 <= h < Hrs ==> p.HourlyFraction[h] == 0.0
  {
    Profile(pUse, Sums.Zeros(Hrs))
  }

  /** A parcel holding exactly the five given values. */
  function NewParcel(pID: string, pUse: string, cgID: string, anSupply: real, anDemand: real): (p: Parcel)
    ensures p.ParcelID == pID && p.ParcelUsetype == pUse && p.CircuitGroupID == cgID
    ensures p.AnnualSupply == anSupply && p.AnnualDemand == anDemand
  {
    Parcel(pID, pUse, cgID, anSupply, anDemand)
  }

  /** A fresh group: empty parcel channel of capacity `parcelCount`, all
      aggregates zero, an hourly vector of `Hrs` zeros. The source's
      make(chan, parcelCount) panics on a negative count, so the count is a
      nat here and the loader reports the negative case. */
  function NewCircuitGroup(cgID: string, parcelCount: nat): (cg: CircuitGroup)
    ensures cg.CircuitGroupID == cgID && cg.ParcelCount == parcelCount
    ensures cg.Parcels == []
    ensures cg.AnnualNetSupply == 0.0 && cg.MaxHourlyNetSupply == 0.0
    ensures |cg.HourlyNetSupply| == Hrs
    ensures forall h :: 0 <= h < Hrs ==> cg.HourlyNetSupply[h] == 0.0
  {
    CircuitGroup(cgID, parcelCount, [], Sums.Zeros(Hrs), 0.0, 0.0)
  }
}
