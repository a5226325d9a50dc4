/** The per-group computation of `Worker` in pkg/workers.go (duplicated in
    pkg/main.go): drain the group's parcels, build the supply and demand
    matrices (hours x parcels), subtract, and reduce to hourly, annual and
    peak-hour net supply. */
module Workers {
  import opened Wrappers
  import opened Types
  import opened Sums
  import opened Matrices

  /** Why a worker stops on a dequeued index. Every one of these is a panic
      or a blocked goroutine in the source. */
  datatype Fault =
    | KeyOutOfRange(key: int)        // circuitGroupPool[key] is out of bounds
    | NilGroup(key: int)             // the slot holds a nil *CircuitGroup
    | EmptyGroup(key: int)           // mat.NewDense with a zero dimension
    | BufferUnderfilled(received: nat) // <-cg.Parcels blocks forever
    | MissingProfile(usetype: string)  // type assertion on a missing entry

  /** The three reductions of one group's net matrix. */
  datatype NetSupply = NetSupply(hourly: seq<real>, annual: real, maxHourly: real)

  /** Every parcel's usetype has a profile. */
  ghost predicate Resolvable(ps: seq<Parcel>, profiles: ProfileMap) {
    forall i :: 0 <= i < |ps| ==> ps[i].ParcelUsetype in profiles
  }

  /** Receiving the i-th parcel (0-based) of `buffer` fails: either the
      channel is empty at that point or the parcel's usetype has no profile. */
  ghost predicate StepFails(buffer: seq<Parcel>, i: nat, profiles: ProfileMap) {
    i >= |buffer| || buffer[i].ParcelUsetype !in profiles
  }

  /** The fault of a failing receive step. */
  function StepFault(buffer: seq<Parcel>, i: nat): Fault {
    if i >= |buffer| then BufferUnderfilled(|buffer|) else MissingProfile(buffer[i].ParcelUsetype)
  }

  /** The receive loop: take `n` parcels from the front of the channel,
      resolving each one's profile as it arrives; stop at the first step
      that blocks or panics. */
  function Drain(buffer: seq<Parcel>, n: nat, profiles: ProfileMap): (r: Result<seq<Parcel>, Fault>)
    ensures r.Success? <==> n <= |buffer| && Resolvable(buffer[..n], profiles)
    ensures r.Success? ==> r.value == buffer[..n]
    ensures r.Failure? ==>
      exists i :: 0 <= i < n && StepFails(buffer, i, profiles) && r.error == StepFault(buffer, i)
        && forall j :: 0 <= j < i ==> !StepFails(buffer, j, profiles)
  {
    if n == 0 then Success([])
    else match Drain(buffer, n - 1, profiles)
      case Failure(e) => Failure(e)
      case Success(ps) =>
        assert forall j :: 0 <= j < n - 1 ==> buffer[..n - 1][j] == buffer[j];
        if n - 1 >= |buffer| then
          assert StepFails(buffer, n - 1, profiles);
          Failure(BufferUnderfilled(|buffer|))
        else if buffer[n - 1].ParcelUsetype !in profiles then
          assert StepFails(buffer, n - 1, profiles);
          Failure(MissingProfile(buffer[n - 1].ParcelUsetype))
        else
          assert buffer[..n] == buffer[..n - 1] + [buffer[n - 1]];
          Success(ps + [buffer[n - 1]])
  }

  /** The net supply of parcel `p` at hour `h`: its share of the shared
      supply profile minus its share of its usetype's demand profile. */
  function ParcelNet(supply: seq<real>, profiles: ProfileMap, p: Parcel, h: nat): real
    requires h < |supply| && p.ParcelUsetype in profiles
    requires h < |profiles[p.ParcelUsetype].HourlyFraction|
  {
    supply[h] * p.AnnualSupply - profiles[p.ParcelUsetype].HourlyFraction[h] * p.AnnualDemand
  }

  /** The net supply of parcel `p` over the whole year. */
  function ParcelAnnualNet(supply: seq<real>, profiles: ProfileMap, p: Parcel): real
    requires p.ParcelUsetype in profiles
  {
    p.AnnualSupply * Sum(supply) - p.AnnualDemand * Sum(profiles[p.ParcelUsetype].HourlyFraction)
  }

  /** Every parcel's net supply at hour `h`, in parcel order. */
  function HourContributions(supply: seq<real>, profiles: ProfileMap, ps: seq<Parcel>, h: nat): (row: seq<real>)
    requires h < |supply| && Resolvable(ps, profiles) && ProfilesSpan(profiles, |supply|)
    ensures |row| == |ps|
    ensures forall i :: 0 <= i < |ps| ==> row[i] == ParcelNet(supply, profiles, ps[i], h)
  {
    seq(|ps|, i requires 0 <= i < |ps| => ParcelNet(supply, profiles, ps[i], h))
  }

  /** Every parcel's demand at hour `h`, in parcel order. */
  function HourDemands(profiles: ProfileMap, ps: seq<Parcel>, hours: nat, h: nat): (row: seq<real>)
    requires h < hours && Resolvable(ps, profiles) && ProfilesSpan(profiles, hours)
    ensures |row| == |ps|
    ensures forall i :: 0 <= i < |ps| ==> row[i] == profiles[ps[i].ParcelUsetype].HourlyFraction[h] * ps[i].AnnualDemand
  {
    seq(|ps|, i requires 0 <= i < |ps| => profiles[ps[i].ParcelUsetype].HourlyFraction[h] * ps[i].AnnualDemand)
  }

  /** The parcels' annual supplies (parcelSupVec). */
  function SupplyVector(ps: seq<Parcel>): (v: seq<real>)
    ensures |v| == |ps|
    ensures forall i :: 0 <= i < |ps| ==> v[i] == ps[i].AnnualSupply
  {
    seq(|ps|, i requires 0 <= i < |ps| => ps[i].AnnualSupply)
  }

  /** Parcel p's demand column: its usetype's profile scaled by its annual
      demand (parcelDemVec.Scale). */
  function DemandColumn(profiles: ProfileMap, p: Parcel): (c: seq<real>)
    requires p.ParcelUsetype in profiles
    ensures |c| == |profiles[p.ParcelUsetype].HourlyFraction|
    ensures forall h :: 0 <= h < |c| ==> c[h] == p.AnnualDemand * profiles[p.ParcelUsetype].HourlyFraction[h]
  {
    Scale(p.AnnualDemand, profiles[p.ParcelUsetype].HourlyFraction)
  }

  /** The supply matrix minus the demand matrix (parcelNetMat): cell (h, i)
      is parcel i's net supply at hour h. */
  function NetMatrix(supply: seq<real>, profiles: ProfileMap, ps: seq<Parcel>): (m: Matrix)
    requires Resolvable(ps, profiles) && ProfilesSpan(profiles, |supply|)
    ensures |m| == |supply| && IsRect(m, |ps|)
    ensures forall h, i :: 0 <= h < |supply| && 0 <= i < |ps| ==>
      m[h][i] == ParcelNet(supply, profiles, ps[i], h)
  {
    var supplyMat := Outer(supply, SupplyVector(ps));
    var demandMat := FromColumns(seq(|ps|, i requires 0 <= i < |ps| => DemandColumn(profiles, ps[i])), |supply|);
    MatSub(supplyMat, demandMat)
  }

  /** The reduction the worker writes back: per-hour sums of the net
      matrix, the matrix total in MWh, and the largest hourly value in MW. */
  function Reduce(supply: seq<real>, profiles: ProfileMap, ps: seq<Parcel>): (r: NetSupply)
    requires |supply| >= 1 && |ps| >= 1
    requires Resolvable(ps, profiles) && ProfilesSpan(profiles, |supply|)
    ensures |r.hourly| == |supply|
    ensures forall h :: 0 <= h < |supply| ==> r.maxHourly >= 0.001 * r.hourly[h]
    ensures exists h :: 0 <= h < |supply| && r.maxHourly == 0.001 * r.hourly[h]
  {
    var net := NetMatrix(supply, profiles, ps);
    var hourly := RowSums(net);
    NetSupply(hourly, MatSum(net) * 0.001, MaxOf(hourly) * 0.001)
  }

  /** Hour h of the hourly vector is the sum over the parcels, in order, of
      each parcel's net supply at h. */
  lemma HourlyIsSumOfParcelNets(supply: seq<real>, profiles: ProfileMap, ps: seq<Parcel>, h: nat)
    requires |supply| >= 1 && |ps| >= 1 && h < |supply|
    requires Resolvable(ps, profiles) && ProfilesSpan(profiles, |supply|)
    ensures Reduce(supply, profiles, ps).hourly[h] == Sum(HourContributions(supply, profiles, ps, h))
  {
    assert NetMatrix(supply, profiles, ps)[h] == HourContributions(supply, profiles, ps, h);
  }

  /** At hour h, the parcels' contributions are their supplies scaled by the
      supply profile at h minus their demands at h. */
  lemma HourContributionsSplit(supply: seq<real>, profiles: ProfileMap, ps: seq<Parcel>, h: nat)
    requires h < |supply| && Resolvable(ps, profiles) && ProfilesSpan(profiles, |supply|)
    ensures HourContributions(supply, profiles, ps, h)
      == Sub(Scale(supply[h], SupplyVector(ps)), HourDemands(profiles, ps, |supply|, h))
  {
    var sv := Scale(supply[h], SupplyVector(ps));
    var dv := HourDemands(profiles, ps, |supply|, h);
    var contributions := HourContributions(supply, profiles, ps, h);
    forall i | 0 <= i < |ps|
      ensures contributions[i] == Sub(sv, dv)[i]
    {
      assert contributions[i] == ParcelNet(supply, profiles, ps[i], h);
    }
  }

  /** The contributions at hour h add up to the supply profile at h times
      the total annual supply, minus the parcels' demands at h. */
  lemma ContributionsClosedForm(supply: seq<real>, profiles: ProfileMap, ps: seq<Parcel>, h: nat)
    requires h < |supply| && Resolvable(ps, profiles) && ProfilesSpan(profiles, |supply|)
    ensures Sum(HourContributions(supply, profiles, ps, h))
      == supply[h] * Sum(SupplyVector(ps)) - Sum(HourDemands(profiles, ps, |supply|, h))
  {
    var sv := Scale(supply[h], SupplyVector(ps));
    var dv := HourDemands(profiles, ps, |supply|, h);
    HourContributionsSplit(supply, profiles, ps, h);
    SumSub(sv, dv);
    SumScale(supply[h], SupplyVector(ps));
  }

  /** Hour h of the hourly vector in closed form: supply profile at h times
      the total annual supply, minus the parcels' demands at h. */
  lemma HourlyClosedForm(supply: seq<real>, profiles: ProfileMap, ps: seq<Parcel>, h: nat)
    requires |supply| >= 1 && |ps| >= 1 && h < |supply|
    requires Resolvable(ps, profiles) && ProfilesSpan(profiles, |supply|)
    ensures Reduce(supply, profiles, ps).hourly[h]
      == supply[h] * Sum(SupplyVector(ps)) - Sum(HourDemands(profiles, ps, |supply|, h))
  {
    HourlyIsSumOfParcelNets(supply, profiles, ps, h);
    ContributionsClosedForm(supply, profiles, ps, h);
  }

  /** The annual value is one thousandth of the sum of the hourly values. */
  lemma AnnualIsScaledHourlyTotal(supply: seq<real>, profiles: ProfileMap, ps: seq<Parcel>)
    requires |supply| >= 1 && |ps| >= 1
    requires Resolvable(ps, profiles) && ProfilesSpan(profiles, |supply|)
    ensures Reduce(supply, profiles, ps).annual == 0.001 * Sum(Reduce(supply, profiles, ps).hourly)
  {
    MatSumIsTotalOfRowSums(NetMatrix(supply, profiles, ps));
  }

  /** Each parcel's annual net supply, in parcel order. */
  function AnnualContributions(supply: seq<real>, profiles: ProfileMap, ps: seq<Parcel>): (v: seq<real>)
    requires Resolvable(ps, profiles)
    ensures |v| == |ps|
    ensures forall i :: 0 <= i < |ps| ==> v[i] == ParcelAnnualNet(supply, profiles, ps[i])
  {
    seq(|ps|, i requires 0 <= i < |ps| => ParcelAnnualNet(supply, profiles, ps[i]))
  }

  /** Column i of the net matrix is parcel i's supply column minus its
      demand column. */
  lemma NetColumn(supply: seq<real>, profiles: ProfileMap, ps: seq<Parcel>, i: nat)
    requires i < |ps| && Resolvable(ps, profiles) && ProfilesSpan(profiles, |supply|)
    ensures Column(NetMatrix(supply, profiles, ps), |ps|, i)
      == Sub(Scale(ps[i].AnnualSupply, supply), DemandColumn(profiles, ps[i]))
  {
    var p := ps[i];
    var a := Scale(p.AnnualSupply, supply);
    var b := DemandColumn(profiles, p);
    var col := Column(NetMatrix(supply, profiles, ps), |ps|, i);
    forall h | 0 <= h < |supply|
      ensures col[h] == Sub(a, b)[h]
    {
      assert col[h] == NetMatrix(supply, profiles, ps)[h][i];
    }
    assert col == Sub(a, b);
  }

  /** Column i of the net matrix totals to parcel i's annual net supply. */
  lemma NetColumnTotal(supply: seq<real>, profiles: ProfileMap, ps: seq<Parcel>, i: nat)
    requires i < |ps| && Resolvable(ps, profiles) && ProfilesSpan(profiles, |supply|)
    ensures Sum(Column(NetMatrix(supply, profiles, ps), |ps|, i)) == ParcelAnnualNet(supply, profiles, ps[i])
  {
    var p := ps[i];
    var f := profiles[p.ParcelUsetype].HourlyFraction;
    NetColumn(supply, profiles, ps, i);
    assert DemandColumn(profiles, p) == Scale(p.AnnualDemand, f);
    SumScaledDifference(p.AnnualSupply, supply, p.AnnualDemand, f);
  }

  /** The annual value is one thousandth of the sum over parcels of each
      parcel's own yearly net supply: the net matrix totalled by column. */
  lemma AnnualIsSumOfParcelAnnuals(supply: seq<real>, profiles: ProfileMap, ps: seq<Parcel>)
    requires |supply| >= 1 && |ps| >= 1
    requires Resolvable(ps, profiles) && ProfilesSpan(profiles, |supply|)
    ensures Reduce(supply, profiles, ps).annual == 0.001 * Sum(AnnualContributions(supply, profiles, ps))
  {
    var net := NetMatrix(supply, profiles, ps);
    MatSumIsTotalOfRowSums(net);
    RowTotalIsColumnTotal(net, |ps|);
    forall i | 0 <= i < |ps|
      ensures ColSums(net, |ps|)[i] == AnnualContributions(supply, profiles, ps)[i]
    {
      NetColumnTotal(supply, profiles, ps, i);
    }
    assert ColSums(net, |ps|) == AnnualContributions(supply, profiles, ps);
  }

  /** One more parcel at the end adds its net supply as the last
      contribution of every hour. */
  lemma ContributionsSnoc(supply: seq<real>, profiles: ProfileMap, ps: seq<Parcel>, p: Parcel, h: nat)
    requires h < |supply| && Resolvable(ps, profiles) && p.ParcelUsetype in profiles && ProfilesSpan(profiles, |supply|)
    ensures Resolvable(ps + [p], profiles)
    ensures HourContributions(supply, profiles, ps + [p], h)
      == HourContributions(supply, profiles, ps, h) + [ParcelNet(supply, profiles, p, h)]
  {
    assert Resolvable(ps + [p], profiles) by {
      forall i | 0 <= i < |ps + [p]| ensures (ps + [p])[i].ParcelUsetype in profiles {
        if i < |ps| { assert (ps + [p])[i] == ps[i]; }
      }
    }
    var before := HourContributions(supply, profiles, ps, h);
    var after := HourContributions(supply, profiles, ps + [p], h);
    var extra := ParcelNet(supply, profiles, p, h);
    forall i | 0 <= i < |after|
      ensures after[i] == (before + [extra])[i]
    {
      if i < |ps| {
        assert (ps + [p])[i] == ps[i];
      }
    }
    assert after == before + [extra];
  }

  /** Adding one parcel at the end of the group adds its net supply to every hour. */
  lemma AppendParcelAddsItsNet(supply: seq<real>, profiles: ProfileMap, ps: seq<Parcel>, p: Parcel, h: nat)
    requires |supply| >= 1 && |ps| >= 1 && h < |supply|
    requires Resolvable(ps, profiles) && p.ParcelUsetype in profiles && ProfilesSpan(profiles, |supply|)
    ensures Resolvable(ps + [p], profiles)
    ensures Reduce(supply, profiles, ps + [p]).hourly[h]
      == Reduce(supply, profiles, ps).hourly[h] + ParcelNet(supply, profiles, p, h)
  {
    ContributionsSnoc(supply, profiles, ps, p, h);
    HourlyIsSumOfParcelNets(supply, profiles, ps, h);
    HourlyIsSumOfParcelNets(supply, profiles, ps + [p], h);
    SumSnoc(HourContributions(supply, profiles, ps, h), ParcelNet(supply, profiles, p, h));
  }

  /** A parcel with no supply and no demand changes none of the group's
      results. */
  lemma IdleParcelIsNeutral(supply: seq<real>, profiles: ProfileMap, ps: seq<Parcel>, p: Parcel)
    requires |supply| >= 1 && |ps| >= 1
    requires Resolvable(ps, profiles) && p.ParcelUsetype in profiles && ProfilesSpan(profiles, |supply|)
    requires p.AnnualSupply == 0.0 && p.AnnualDemand == 0.0
    ensures Resolvable(ps + [p], profiles)
    ensures Reduce(supply, profiles, ps + [p]) == Reduce(supply, profiles, ps)
  {
    var r0 := Reduce(supply, profiles, ps);
    forall h | 0 <= h < |supply|
      ensures Reduce(supply, profiles, ps + [p]).hourly[h] == r0.hourly[h]
    {
      AppendParcelAddsItsNet(supply, profiles, ps, p, h);
    }
    var r1 := Reduce(supply, profiles, ps + [p]);
    assert r1.hourly == r0.hourly;
    AnnualIsScaledHourlyTotal(supply, profiles, ps);
    AnnualIsScaledHourlyTotal(supply, profiles, ps + [p]);
  }

  /** The group after its worker ran: same id and count, `ParcelCount`
      parcels taken from the front of its channel, aggregates replaced. */
  function Settle(cg: CircuitGroup, supply: seq<real>, profiles: ProfileMap): (done: CircuitGroup)
    requires |supply| >= 1 && ProfilesSpan(profiles, |supply|)
    requires 1 <= cg.ParcelCount <= |cg.Parcels| && Resolvable(cg.Parcels[..cg.ParcelCount], profiles)
  {
    var red := Reduce(supply, profiles, cg.Parcels[..cg.ParcelCount]);
    cg.(Parcels := cg.Parcels[cg.ParcelCount..],
        HourlyNetSupply := red.hourly,
        AnnualNetSupply := red.annual,
        MaxHourlyNetSupply := red.maxHourly)
  }

  /** Slot `key` holds a group its worker can finish: the group exists,
      has a parcel to take, has that many buffered, and each of them has a
      profile for its usetype. */
  ghost predicate Ready(pool: Pool, key: int, profiles: ProfileMap) {
    && 0 <= key < |pool| && pool[key].Some?
    && 1 <= pool[key].value.ParcelCount <= |pool[key].value.Parcels|
    && Resolvable(pool[key].value.Parcels[..pool[key].value.ParcelCount], profiles)
  }

  /** One iteration of the worker loop on dequeued index `key`: which
      inputs make it stop, and that it changes nothing but that one slot,
      whose id and count survive and whose channel loses exactly
      `ParcelCount` parcels from the front. */
  function Worker(pool: Pool, key: int, supply: seq<real>, profiles: ProfileMap): (r: Result<Pool, Fault>)
    requires |supply| >= 1 && ProfilesSpan(profiles, |supply|)
    ensures r.Success? <==> Ready(pool, key, profiles)
    ensures r.Success? ==> |r.value| == |pool|
    ensures !(0 <= key < |pool|) ==> r == Failure(KeyOutOfRange(key))
    ensures 0 <= key < |pool| && pool[key].None? ==> r == Failure(NilGroup(key))
    ensures 0 <= key < |pool| && pool[key].Some? && pool[key].value.ParcelCount == 0 ==>
      r == Failure(EmptyGroup(key))
    ensures 0 <= key < |pool| && pool[key].Some? && pool[key].value.ParcelCount >= 1 && r.Failure? ==>
      Drain(pool[key].value.Parcels, pool[key].value.ParcelCount, profiles) == Failure(r.error)
    ensures r.Success? ==>
      && pool[key].Some?
      && (forall k :: 0 <= k < |pool| && k != key ==> r.value[k] == pool[k])
      && r.value[key].Some?
      && r.value[key].value.CircuitGroupID == pool[key].value.CircuitGroupID
      && r.value[key].value.ParcelCount == pool[key].value.ParcelCount
      && r.value[key].value.Parcels == pool[key].value.Parcels[pool[key].value.ParcelCount..]
  {
    if key < 0 || key >= |pool| then Failure(KeyOutOfRange(key))
    else match pool[key]
      case None => Failure(NilGroup(key))
      case Some(cg) =>
        if cg.ParcelCount == 0 then Failure(EmptyGroup(key))
        else match Drain(cg.Parcels, cg.ParcelCount, profiles)
          case Failure(e) => Failure(e)
          case Success(_) => Success(pool[key := Some(Settle(cg, supply, profiles))])
  }

  /** What the worker writes into the group it processed: the hourly sums
      over the parcels it received, one thousandth of their total as the
      annual value, and one thousandth of the largest hour as the peak. */
  lemma WorkerWritesNetSupply(pool: Pool, key: int, supply: seq<real>, profiles: ProfileMap)
    requires |supply| >= 1 && ProfilesSpan(profiles, |supply|)
    requires Ready(pool, key, profiles)
    ensures Worker(pool, key, supply, profiles).Success?
    ensures var cg := pool[key].value;
      var ps := cg.Parcels[..cg.ParcelCount];
      var done := Worker(pool, key, supply, profiles).value[key].value;
      && 1 <= |ps| && Resolvable(ps, profiles)
      && |done.HourlyNetSupply| == |supply|
      && (forall h :: 0 <= h < |supply| ==>
            done.HourlyNetSupply[h] == Sum(HourContributions(supply, profiles, ps, h)))
      && done.AnnualNetSupply == 0.001 * Sum(done.HourlyNetSupply)
      && done.AnnualNetSupply == 0.001 * Sum(AnnualContributions(supply, profiles, ps))
      && (forall h :: 0 <= h < |supply| ==> done.MaxHourlyNetSupply >= 0.001 * done.HourlyNetSupply[h])
      && (exists h :: 0 <= h < |supply| && done.MaxHourlyNetSupply == 0.001 * done.HourlyNetSupply[h])
  {
    var cg := pool[key].value;
    var ps := cg.Parcels[..cg.ParcelCount];
    AnnualIsScaledHourlyTotal(supply, profiles, ps);
    AnnualIsSumOfParcelAnnuals(supply, profiles, ps);
    forall h | 0 <= h < |supply|
      ensures Reduce(supply, profiles, ps).hourly[h] == Sum(HourContributions(supply, profiles, ps, h))
    {
      HourlyIsSumOfParcelNets(supply, profiles, ps, h);
    }
  }
}
