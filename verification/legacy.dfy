/** The single-demand-profile predecessor in prioritizationTool.go: parcels
    carry no usetype, groups keep no hourly vector, and every parcel shares
    one supply and one demand profile. */
module Legacy {
  import opened Wrappers
  import opened Sums
  import opened Matrices
  import opened Types
  import opened Workers

  /** A parcel of the single-profile tool. */
  datatype LegacyParcel = LegacyParcel(
    ParcelID: string,
    CircuitGroupID: string,
    AnnualSupply: real,
    AnnualDemand: real)

  /** A circuit group of the single-profile tool; `Parcels` is what its
      channel of capacity `ParcelCount` buffers, oldest first. */
  datatype LegacyGroup = LegacyGroup(
    CircuitGroupID: string,
    ParcelCount: nat,
    Parcels: seq<LegacyParcel>,
    AnnualNetSupply: real,
    MaxHourlyNetSupply: real)

  type LegacyPool = seq<Option<LegacyGroup>>

  /** A parcel holding exactly the four given values. */
  function NewLegacyParcel(pID: string, cgID: string, anSupply: real, anDemand: real): (p: LegacyParcel)
    ensures p.ParcelID == pID && p.CircuitGroupID == cgID
    ensures p.AnnualSupply == anSupply && p.AnnualDemand == anDemand
  {
    LegacyParcel(pID, cgID, anSupply, anDemand)
  }

  /** A fresh group: empty channel of capacity `parcelCount`, zero
      aggregates. */
  function NewLegacyGroup(cgID: string, parcelCount: nat): (cg: LegacyGroup)
    ensures cg.CircuitGroupID == cgID && cg.ParcelCount == parcelCount
    ensures cg.Parcels == [] && cg.AnnualNetSupply == 0.0 && cg.MaxHourlyNetSupply == 0.0
  {
    LegacyGroup(cgID, parcelCount, [], 0.0, 0.0)
  }

  /** The parcels' annual supplies (parcelSupVec). */
  function LegacySupplyVector(ps: seq<LegacyParcel>): (v: seq<real>)
    ensures |v| == |ps|
    ensures forall i :: 0 <= i < |ps| ==> v[i] == ps[i].AnnualSupply
  {
    seq(|ps|, i requires 0 <= i < |ps| => ps[i].AnnualSupply)
  }

  /** The parcels' annual demands (parcelDemVec). */
  function LegacyDemandVector(ps: seq<LegacyParcel>): (v: seq<real>)
    ensures |v| == |ps|
    ensures forall i :: 0 <= i < |ps| ==> v[i] == ps[i].AnnualDemand
  {
    seq(|ps|, i requires 0 <= i < |ps| => ps[i].AnnualDemand)
  }

  /** parcelNetMat: the supply profile times the supplies minus the demand
      profile times the demands, hours by parcels. */
  function LegacyNetMatrix(supply: seq<real>, demand: seq<real>, ps: seq<LegacyParcel>): (m: Matrix)
    requires |demand| == |supply|
    ensures |m| == |supply| && IsRect(m, |ps|)
    ensures forall h, i :: 0 <= h < |supply| && 0 <= i < |ps| ==>
      m[h][i] == supply[h] * ps[i].AnnualSupply - demand[h] * ps[i].AnnualDemand
  {
    MatSub(Outer(supply, LegacySupplyVector(ps)), Outer(demand, LegacyDemandVector(ps)))
  }

  /** The reduction of the single-profile worker: per-hour sums, the total
      in MWh, the largest hour in MW. */
  function LegacyReduce(supply: seq<real>, demand: seq<real>, ps: seq<LegacyParcel>): (r: NetSupply)
    requires |supply| >= 1 && |demand| == |supply| && |ps| >= 1
    ensures |r.hourly| == |supply|
    ensures forall h :: 0 <= h < |supply| ==> r.maxHourly >= 0.001 * r.hourly[h]
    ensures exists h :: 0 <= h < |supply| && r.maxHourly == 0.001 * r.hourly[h]
  {
    var net := LegacyNetMatrix(supply, demand, ps);
    var hourly := RowSums(net);
    NetSupply(hourly, MatSum(net) * 0.001, MaxOf(hourly) * 0.001)
  }

  /** Row h of the net matrix totals to the supply profile at h times the
      group's total supply minus the demand profile at h times its total
      demand. */
  lemma LegacyHourClosedForm(supply: seq<real>, demand: seq<real>, ps: seq<LegacyParcel>, h: nat)
    requires |demand| == |supply| && h < |supply|
    ensures Sum(LegacyNetMatrix(supply, demand, ps)[h])
      == Sum(LegacySupplyVector(ps)) * supply[h] - Sum(LegacyDemandVector(ps)) * demand[h]
  {
    var sv := LegacySupplyVector(ps);
    var dv := LegacyDemandVector(ps);
    var row := LegacyNetMatrix(supply, demand, ps)[h];
    var a := Scale(supply[h], sv);
    var b := Scale(demand[h], dv);
    forall i | 0 <= i < |ps|
      ensures row[i] == Sub(a, b)[i]
    {
    }
    assert row == Sub(a, b);
    SumSub(a, b);
    SumScale(supply[h], sv);
    SumScale(demand[h], dv);
  }

  /** The hourly vector in closed form: the supply profile scaled by the
      group's total supply minus the demand profile scaled by its total
      demand. */
  lemma LegacyHourlyClosedForm(supply: seq<real>, demand: seq<real>, ps: seq<LegacyParcel>)
    requires |supply| >= 1 && |demand| == |supply| && |ps| >= 1
    ensures LegacyReduce(supply, demand, ps).hourly
      == Sub(Scale(Sum(LegacySupplyVector(ps)), supply), Scale(Sum(LegacyDemandVector(ps)), demand))
  {
    var net := LegacyNetMatrix(supply, demand, ps);
    var hourly := RowSums(net);
    var closed := Sub(Scale(Sum(LegacySupplyVector(ps)), supply), Scale(Sum(LegacyDemandVector(ps)), demand));
    forall h | 0 <= h < |supply|
      ensures hourly[h] == closed[h]
    {
      LegacyHourClosedForm(supply, demand, ps, h);
    }
    assert hourly == closed;
  }

  /** The annual value is one thousandth of the hourly total. */
  lemma LegacyAnnualIsScaledHourlyTotal(supply: seq<real>, demand: seq<real>, ps: seq<LegacyParcel>)
    requires |supply| >= 1 && |demand| == |supply| && |ps| >= 1
    ensures LegacyReduce(supply, demand, ps).annual == 0.001 * Sum(LegacyReduce(supply, demand, ps).hourly)
  {
    MatSumIsTotalOfRowSums(LegacyNetMatrix(supply, demand, ps));
  }

  /** The parcels as the multi-profile tool sees them: every one of usetype
      `u`. */
  function Lift(ps: seq<LegacyParcel>, u: string): (qs: seq<Parcel>)
    ensures |qs| == |ps|
    ensures forall i :: 0 <= i < |ps| ==>
      qs[i] == Parcel(ps[i].ParcelID, u, ps[i].CircuitGroupID, ps[i].AnnualSupply, ps[i].AnnualDemand)
  {
    seq(|ps|, i requires 0 <= i < |ps| =>
      Parcel(ps[i].ParcelID, u, ps[i].CircuitGroupID, ps[i].AnnualSupply, ps[i].AnnualDemand))
  }

  /** A profile store holding the one demand profile under usetype `u`. */
  function SharedProfile(u: string, demand: seq<real>): (profiles: ProfileMap)
    ensures profiles.Keys == {u} && profiles[u] == Profile(u, demand)
    ensures ProfilesSpan(profiles, |demand|)
  {
    map[u := Profile(u, demand)]
  }

  /** The single-profile net matrix is the multi-profile one when every
      parcel's usetype maps to the shared demand profile. */
  lemma LegacyNetIsSharedProfileNet(supply: seq<real>, demand: seq<real>, ps: seq<LegacyParcel>, u: string)
    requires |demand| == |supply|
    ensures Resolvable(Lift(ps, u), SharedProfile(u, demand))
    ensures LegacyNetMatrix(supply, demand, ps) == NetMatrix(supply, SharedProfile(u, demand), Lift(ps, u))
  {
    var profiles := SharedProfile(u, demand);
    var qs := Lift(ps, u);
    var m1 := LegacyNetMatrix(supply, demand, ps);
    var m2 := NetMatrix(supply, profiles, qs);
    forall h | 0 <= h < |supply|
      ensures m1[h] == m2[h]
    {
      forall i | 0 <= i < |ps|
        ensures m1[h][i] == m2[h][i]
      {
        assert m2[h][i] == ParcelNet(supply, profiles, qs[i], h);
      }
    }
  }

  /** The single-profile worker's reduction equals the multi-profile one's
      on the same parcels, all of one usetype whose profile is the shared
      demand profile: the pkg worker generalises this one. */
  lemma LegacyAgreesWithSharedProfile(supply: seq<real>, demand: seq<real>, ps: seq<LegacyParcel>, u: string)
    requires |supply| >= 1 && |demand| == |supply| && |ps| >= 1
    ensures Resolvable(Lift(ps, u), SharedProfile(u, demand))
    ensures LegacyReduce(supply, demand, ps) == Reduce(supply, SharedProfile(u, demand), Lift(ps, u))
  {
    LegacyNetIsSharedProfileNet(supply, demand, ps, u);
  }

  /** A parcel's yearly net supply: its supply times the supply-profile
      total minus its demand times the demand-profile total. */
  function LegacyParcelAnnualNet(supply: seq<real>, demand: seq<real>, p: LegacyParcel): real {
    p.AnnualSupply * Sum(supply) - p.AnnualDemand * Sum(demand)
  }

  /** Each parcel's yearly net supply, in parcel order. */
  function LegacyAnnualContributions(supply: seq<real>, demand: seq<real>, ps: seq<LegacyParcel>): (v: seq<real>)
    ensures |v| == |ps|
    ensures forall i :: 0 <= i < |ps| ==> v[i] == LegacyParcelAnnualNet(supply, demand, ps[i])
  {
    seq(|ps|, i requires 0 <= i < |ps| => LegacyParcelAnnualNet(supply, demand, ps[i]))
  }

  /** A lifted parcel's yearly net supply under the shared profile is the
      parcel's own. */
  lemma SameParcelAnnual(supply: seq<real>, demand: seq<real>, p: LegacyParcel, q: Parcel, profiles: ProfileMap)
    requires q.ParcelUsetype in profiles && profiles[q.ParcelUsetype].HourlyFraction == demand
    requires q.AnnualSupply == p.AnnualSupply && q.AnnualDemand == p.AnnualDemand
    ensures ParcelAnnualNet(supply, profiles, q) == LegacyParcelAnnualNet(supply, demand, p)
  {
  }

  /** The annual value is one thousandth of the sum over parcels of each
      parcel's supply times the supply-profile total minus its demand times
      the demand-profile total. */
  lemma LegacyAnnualIsSumOfParcelAnnuals(supply: seq<real>, demand: seq<real>, ps: seq<LegacyParcel>)
    requires |supply| >= 1 && |demand| == |supply| && |ps| >= 1
    ensures LegacyReduce(supply, demand, ps).annual == 0.001 * Sum(LegacyAnnualContributions(supply, demand, ps))
  {
    var u := "";
    var profiles := SharedProfile(u, demand);
    var qs := Lift(ps, u);
    LegacyAgreesWithSharedProfile(supply, demand, ps, u);
    AnnualIsSumOfParcelAnnuals(supply, profiles, qs);
    var lifted := AnnualContributions(supply, profiles, qs);
    var own := LegacyAnnualContributions(supply, demand, ps);
    forall i | 0 <= i < |ps|
      ensures lifted[i] == own[i]
    {
      SameParcelAnnual(supply, demand, ps[i], qs[i], profiles);
    }
    assert lifted == own;
  }

  /** Slot `key` holds a group the single-profile worker can finish: it
      exists, has a parcel to take, and has that many buffered. */
  ghost predicate LegacyReady(pool: LegacyPool, key: int) {
    && 0 <= key < |pool| && pool[key].Some?
    && 1 <= pool[key].value.ParcelCount <= |pool[key].value.Parcels|
  }

  /** One iteration of the single-profile worker loop on index `key`. */
  function LegacyWorker(pool: LegacyPool, key: int, supply: seq<real>, demand: seq<real>): (r: Result<LegacyPool, Fault>)
    requires |supply| >= 1 && |demand| == |supply|
    ensures r.Success? <==> LegacyReady(pool, key)
    ensures r.Success? ==> |r.value| == |pool|
    ensures !(0 <= key < |pool|) ==> r == Failure(KeyOutOfRange(key))
    ensures 0 <= key < |pool| && pool[key].None? ==> r == Failure(NilGroup(key))
    ensures 0 <= key < |pool| && pool[key].Some? && pool[key].value.ParcelCount == 0 ==>
      r == Failure(EmptyGroup(key))
    ensures 0 <= key < |pool| && pool[key].Some? && 1 <= pool[key].value.ParcelCount && r.Failure? ==>
      r == Failure(BufferUnderfilled(|pool[key].value.Parcels|))
    ensures r.Failure? ==> !r.error.MissingProfile?
    ensures r.Success? ==>
      && pool[key].Some?
      && (forall k :: 0 <= k < |pool| && k != key ==> r.value[k] == pool[k])
      && r.value[key].Some?
      && r.value[key].value.CircuitGroupID == pool[key].value.CircuitGroupID
      && r.value[key].value.ParcelCount == pool[key].value.ParcelCount
      && r.value[key].value.Parcels == pool[key].value.Parcels[pool[key].value.ParcelCount..]
  {
    if key < 0 || key >= |pool| then Failure(KeyOutOfRange(key))
    else match pool[key]
      case None => Failure(NilGroup(key))
      case Some(cg) =>
        if cg.ParcelCount == 0 then Failure(EmptyGroup(key))
        else if |cg.Parcels| < cg.ParcelCount then Failure(BufferUnderfilled(|cg.Parcels|))
        else
          var red := LegacyReduce(supply, demand, cg.Parcels[..cg.ParcelCount]);
          Success(pool[key := Some(cg.(Parcels := cg.Parcels[cg.ParcelCount..],
                                      AnnualNetSupply := red.annual,
                                      MaxHourlyNetSupply := red.maxHourly))])
  }

  /** What the single-profile worker writes into the group: one thousandth
      of the hourly total, equal to the sum of the parcels' yearly net
      supplies, and the peak of the closed-form hourly vector. */
  lemma LegacyWorkerWritesNetSupply(pool: LegacyPool, key: int, supply: seq<real>, demand: seq<real>)
    requires |supply| >= 1 && |demand| == |supply|
    requires LegacyReady(pool, key)
    ensures LegacyWorker(pool, key, supply, demand).Success?
    ensures var cg := pool[key].value;
      var ps := cg.Parcels[..cg.ParcelCount];
      var done := LegacyWorker(pool, key, supply, demand).value[key].value;
      var hourly := Sub(Scale(Sum(LegacySupplyVector(ps)), supply), Scale(Sum(LegacyDemandVector(ps)), demand));
      && done.AnnualNetSupply == 0.001 * Sum(hourly)
      && done.AnnualNetSupply == 0.001 * Sum(LegacyAnnualContributions(supply, demand, ps))
      && (forall h :: 0 <= h < |supply| ==> done.MaxHourlyNetSupply >= 0.001 * hourly[h])
      && (exists h :: 0 <= h < |supply| && done.MaxHourlyNetSupply == 0.001 * hourly[h])
  {
    var cg := pool[key].value;
    var ps := cg.Parcels[..cg.ParcelCount];
    LegacyHourlyClosedForm(supply, demand, ps);
    LegacyAnnualIsScaledHourlyTotal(supply, demand, ps);
    LegacyAnnualIsSumOfParcelAnnuals(supply, demand, ps);
  }
}
