/** The loaders of prioritizationTool.go: the same table logic as the pkg
    loaders, without header rows, with one profile file per side and parcel
    rows of four cells (id, group id, supply, demand). */
module LegacyIo {
  import opened Wrappers
  import opened Types
  import opened Tables
  import opened Channels
  import opened Io
  import opened Legacy

  /** LoadProfileData: column 0 of a header-less table as an hourly vector. */
  method LoadProfileData(table: Table, parse: string -> Option<real>)
    returns (r: Result<seq<real>, LoadError>)
    ensures r.Success? <==> ColumnOk(table, 0, 0, parse)
    ensures r.Success? ==> IsColumn(r.value, table, 0, 0, parse)
    ensures r.Failure? ==> FirstCellFault(table, 0, 0, parse, r.error)
  {
    r := LoadColumn(table, 0, 0, parse);
  }

  /** LoadCircuitGroupData of the single-profile tool: the group-loading
      loop with no header row, so every row is a group row and the reported
      group count is the row count. */
  method LoadLegacyCircuitGroupData(table: Table, atoi: string -> Option<int>)
    returns (r: Result<GroupLoad<LegacyGroup>, LoadError>)
    ensures r.Success? <==> GroupRowsOk(table, 0, |table|, atoi)
    ensures r.Failure? ==> FirstGroupFault(table, 0, atoi, r.error)
    ensures r.Success? ==> r.value.groups == |table| == |r.value.queue| && |r.value.pool| == Cnt
    ensures r.Success? ==> forall i :: 0 <= i < |table| ==> r.value.queue[i] == GroupKey(table, i, 0, atoi) - 1
    ensures r.Success? ==> forall s :: 0 <= s < Cnt ==> (r.value.pool[s].Some? <==> s in r.value.queue)
    ensures r.Success? ==> forall i :: 0 <= i < |table| && LastWithKey(table, 0, i, |table|, atoi) ==>
      r.value.pool[GroupKey(table, i, 0, atoi) - 1]
        == Some(NewLegacyGroup(GroupId(table, i, 0, atoi), GroupCount(table, i, 0, atoi)))
  {
    r := LoadGroups(table, 0, atoi, (id: string, count: nat) => NewLegacyGroup(id, count));
  }

  /** Row `i` of the single-profile parcel table: id and group id cells are
      read, supply (cell 2) and demand (cell 3) parsed and scrubbed, then
      the group id parsed as the routing key. */
  function ParseLegacyParcelRow(row: seq<string>, i: nat, pf: string -> Option<real>, atoi: string -> Option<int>)
    : (r: Result<(int, LegacyParcel), LoadError>)
    ensures r.Success? <==> |row| >= 4 && pf(row[2]).Some? && pf(row[3]).Some? && atoi(row[1]).Some?
    ensures r.Success? ==>
      && r.value.0 == atoi(row[1]).value
      && r.value.1.ParcelID == row[0] && r.value.1.CircuitGroupID == row[1]
      && (r.value.1.AnnualSupply, r.value.1.AnnualDemand) == Scrub(pf(row[2]).value, pf(row[3]).value)
    ensures r.Failure? ==> r.error in {ShortRow(i, |row|), ShortRow(i, 3), BadNumber(i, 2), BadNumber(i, 3), BadNumber(i, 1)}
  {
    if |row| < 3 then Failure(ShortRow(i, |row|))
    else if pf(row[2]).None? then Failure(BadNumber(i, 2))
    else if |row| < 4 then Failure(ShortRow(i, 3))
    else if pf(row[3]).None? then Failure(BadNumber(i, 3))
    else
      var (supply, demand) := Scrub(pf(row[2]).value, pf(row[3]).value);
      if atoi(row[1]).None? then Failure(BadNumber(i, 1))
      else Success((atoi(row[1]).value, NewLegacyParcel(row[0], row[1], supply, demand)))
  }

  /** The row parser the single-profile parcel loader hands to DeliverRows. */
  function LegacyParcelRows(pf: string -> Option<real>, atoi: string -> Option<int>): RowParser<LegacyParcel> {
    (row: seq<string>, i: nat) => ParseLegacyParcelRow(row, i, pf, atoi)
  }

  /** The parcel channels of a single-profile pool, slot by slot. */
  function LegacyChannelsOf(pool: LegacyPool): (chans: Channels<LegacyParcel>)
    ensures |chans| == |pool|
    ensures forall s :: 0 <= s < |pool| ==> (chans[s].Some? <==> pool[s].Some?)
    ensures forall s :: 0 <= s < |pool| && pool[s].Some? ==>
      chans[s].value == Channel(pool[s].value.ParcelCount, pool[s].value.Parcels)
  {
    seq(|pool|, s requires 0 <= s < |pool| =>
      if pool[s].None? then None else Some(Channel(pool[s].value.ParcelCount, pool[s].value.Parcels)))
  }

  /** Every channel of the single-profile pool is within its capacity. */
  ghost predicate LegacyBuffersWithinCount(pool: LegacyPool) {
    forall s :: 0 <= s < |pool| && pool[s].Some? ==> |pool[s].value.Parcels| <= pool[s].value.ParcelCount
  }

  /** The pool once every group's buffer holds what its channel holds. */
  function LegacyWithBuffers(pool: LegacyPool, chans: Channels<LegacyParcel>): (out: LegacyPool)
    requires |chans| == |pool|
    requires forall s :: 0 <= s < |pool| ==> (chans[s].Some? <==> pool[s].Some?)
    ensures |out| == |pool|
    ensures forall s :: 0 <= s < |pool| && pool[s].None? ==> out[s].None?
    ensures forall s :: 0 <= s < |pool| && pool[s].Some? ==>
      out[s] == Some(pool[s].value.(Parcels := chans[s].value.items))
  {
    seq(|pool|, s requires 0 <= s < |pool| =>
      if pool[s].None? then None else Some(pool[s].value.(Parcels := chans[s].value.items)))
  }

  /** Once every row went through, each group's buffer is its old buffer
      followed by the parcels routed to it, and still within its count. */
  lemma LegacyDeliveredBuffers(pool: LegacyPool, table: Table, lo: nat, parse: RowParser<LegacyParcel>)
    requires Deliverable(LegacyChannelsOf(pool), table, lo, |table|, parse)
    ensures LegacyBuffersWithinCount(LegacyWithBuffers(pool, Delivered(LegacyChannelsOf(pool), table, lo, |table|, parse)))
    ensures forall s :: 0 <= s < |pool| && pool[s].Some? ==>
      LegacyWithBuffers(pool, Delivered(LegacyChannelsOf(pool), table, lo, |table|, parse))[s]
        == Some(pool[s].value.(Parcels := pool[s].value.Parcels + Routed(table, lo, |table|, s + 1, parse)))
  {
    var chans := LegacyChannelsOf(pool);
    var d := Delivered(chans, table, lo, |table|, parse);
    var out := LegacyWithBuffers(pool, d);
    forall s | 0 <= s < |pool| && pool[s].Some?
      ensures out[s] == Some(pool[s].value.(Parcels := pool[s].value.Parcels + Routed(table, lo, |table|, s + 1, parse)))
      ensures |out[s].value.Parcels| <= out[s].value.ParcelCount
    {
      var routed := Routed(table, lo, |table|, s + 1, parse);
      assert chans[s].value == Channel(pool[s].value.ParcelCount, pool[s].value.Parcels);
      assert d[s].value.items == pool[s].value.Parcels + routed;
      assert |pool[s].value.Parcels| + |routed| <= pool[s].value.ParcelCount;
    }
  }

  /** LoadParcelData of the single-profile tool: every row's parcel is sent,
      in row order, to the channel of the group its id names. */
  method LoadLegacyParcelData(pool: LegacyPool, table: Table, pf: string -> Option<real>, atoi: string -> Option<int>)
    returns (r: Result<LegacyPool, LoadError>)
    requires LegacyBuffersWithinCount(pool)
    ensures r.Success? <==> Deliverable(LegacyChannelsOf(pool), table, 0, |table|, LegacyParcelRows(pf, atoi))
    ensures r.Success? ==> |r.value| == |pool| && LegacyBuffersWithinCount(r.value)
    ensures r.Success? ==> forall s :: 0 <= s < |pool| ==>
      && (pool[s].None? ==> r.value[s].None?)
      && (pool[s].Some? ==> r.value[s] == Some(pool[s].value.(Parcels :=
            pool[s].value.Parcels + Routed(table, 0, |table|, s + 1, LegacyParcelRows(pf, atoi)))))
    ensures r.Failure? ==> exists i ::
      && 0 <= i < |table|
      && Deliverable(LegacyChannelsOf(pool), table, 0, i, LegacyParcelRows(pf, atoi))
      && RowError(LegacyChannelsOf(pool), table, 0, i, LegacyParcelRows(pf, atoi)) == Some(r.error)
  {
    var rows := LegacyParcelRows(pf, atoi);
    var chans := LegacyChannelsOf(pool);
    var sent := DeliverRows(chans, table, 0, rows);
    if sent.Failure? {
      return Failure(sent.error);
    }
    LegacyDeliveredBuffers(pool, table, 0, rows);
    return Success(LegacyWithBuffers(pool, sent.value));
  }
}
