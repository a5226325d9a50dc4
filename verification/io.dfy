/** The table-to-value logic of the loaders in pkg/io.go (duplicated in
    pkg/main.go). The CSV file has already been split into a table of
    cells; number parsing (strconv.ParseFloat, strconv.Atoi) is a parameter
    returning None where the source logs and exits. */
module Io {
  import opened Wrappers
  import opened Types
  import opened Generators
  import Sums
  import opened Tables
  import opened Channels

  // ---------------------------------------------------------------------
  // Profile columns

  /** What goes wrong, if anything, reading row `i` of column `col` into
      hour `i - skip` (skip is the number of header rows). */
  function CellFault(table: Table, i: nat, col: nat, skip: nat, parse: string -> Option<real>): Option<LoadError>
    requires skip <= i < |table|
  {
    if col >= |table[i]| then Some(ShortRow(i, col))
    else if parse(table[i][col]).None? then Some(BadNumber(i, col))
    else if i - skip >= Hrs then Some(TooManyRows(i))
    else None
  }

  /** Every data row of column `col` can be read. */
  ghost predicate ColumnOk(table: Table, col: nat, skip: nat, parse: string -> Option<real>) {
    forall i :: skip <= i < |table| ==> CellFault(table, i, col, skip, parse).None?
  }

  /** `e` is the fault of the first unreadable data row of column `col`. */
  ghost predicate FirstCellFault(table: Table, col: nat, skip: nat, parse: string -> Option<real>, e: LoadError) {
    exists i :: skip <= i < |table| && CellFault(table, i, col, skip, parse) == Some(e)
      && forall k :: skip <= k < i ==> CellFault(table, k, col, skip, parse).None?
  }

  /** `v` is column `col` as an hourly vector: data row i at hour i - skip,
      zero for every hour no row reaches. */
  ghost predicate IsColumn(v: seq<real>, table: Table, col: nat, skip: nat, parse: string -> Option<real>) {
    && |v| == Hrs
    && (forall i :: skip <= i < |table| ==>
          CellFault(table, i, col, skip, parse).None? && v[i - skip] == parse(table[i][col]).value)
    && (forall h :: 0 <= h < Hrs && h + skip >= |table| ==> v[h] == 0.0)
  }

  /** Read one column of numbers into a zero-initialised vector of `Hrs`
      hours, row i (from `skip` on) going to hour i - skip. */
  method LoadColumn(table: Table, col: nat, skip: nat, parse: string -> Option<real>)
    returns (r: Result<seq<real>, LoadError>)
    ensures r.Success? <==> ColumnOk(table, col, skip, parse)
    ensures r.Success? ==> IsColumn(r.value, table, col, skip, parse)
    ensures r.Failure? ==> FirstCellFault(table, col, skip, parse, r.error)
  {
    var v := Sums.Zeros(Hrs);
    var i := skip;
    while i < |table|
      invariant skip <= i && (i <= |table| || i == skip)
      invariant |v| == Hrs
      invariant forall k :: skip <= k < i ==>
        CellFault(table, k, col, skip, parse).None? && v[k - skip] == parse(table[k][col]).value
      invariant forall h :: 0 <= h < Hrs && h + skip >= i ==> v[h] == 0.0
      decreases |table| - i
    {
      var fault := CellFault(table, i, col, skip, parse);
      if fault.Some? {
        return Failure(fault.value);
      }
      v := v[i - skip := parse(table[i][col]).value];
      i := i + 1;
    }
    return Success(v);
  }

  /** LoadSupplyProfileData: column 0 below a header row. */
  method LoadSupplyProfileData(table: Table, parse: string -> Option<real>)
    returns (r: Result<seq<real>, LoadError>)
    ensures r.Success? <==> ColumnOk(table, 0, 1, parse)
    ensures r.Success? ==> IsColumn(r.value, table, 0, 1, parse)
    ensures r.Failure? ==> FirstCellFault(table, 0, 1, parse, r.error)
  {
    r := LoadColumn(table, 0, 1, parse);
  }

  /** Column `k` of the header row is the last column carrying its usetype
      among the first `n`. */
  ghost predicate LastWithHeader(header: seq<string>, k: nat, n: nat)
    requires k < n <= |header|
  {
    forall k' :: k < k' < n ==> header[k'] != header[k]
  }

  /** The header cells of the first `n` columns. */
  ghost function Usetypes(header: seq<string>, n: nat): set<string>
    requires n <= |header|
  {
    set k | 0 <= k < n :: header[k]
  }

  /** Storing column `j` keeps the account of the map built so far: its
      keys are the headers seen so far and each key's profile is read from
      the last column carrying it. */
  lemma DemandStep(table: Table, parse: string -> Option<real>, profiles: ProfileMap, j: nat, profile: Profile)
    requires |table| > 0 && j < |table[0]|
    requires profiles.Keys == Usetypes(table[0], j)
    requires forall k :: 0 <= k < j && LastWithHeader(table[0], k, j) ==>
      profiles[table[0][k]].ProfileUsetype == table[0][k] && IsColumn(profiles[table[0][k]].HourlyFraction, table, k, 1, parse)
    requires profile.ProfileUsetype == table[0][j] && IsColumn(profile.HourlyFraction, table, j, 1, parse)
    ensures profiles[table[0][j] := profile].Keys == Usetypes(table[0], j + 1)
    ensures forall k :: 0 <= k < j + 1 && LastWithHeader(table[0], k, j + 1) ==>
      profiles[table[0][j] := profile][table[0][k]].ProfileUsetype == table[0][k]
      && IsColumn(profiles[table[0][j] := profile][table[0][k]].HourlyFraction, table, k, 1, parse)
  {
    var header := table[0];
    var next := profiles[header[j] := profile];
    assert Usetypes(header, j + 1) == Usetypes(header, j) + {header[j]};
    forall k | 0 <= k < j + 1 && LastWithHeader(header, k, j + 1)
      ensures next[header[k]].ProfileUsetype == header[k] && IsColumn(next[header[k]].HourlyFraction, table, k, 1, parse)
    {
      if k < j {
        assert header[j] != header[k];
        assert LastWithHeader(header, k, j);
        assert header[k] in Usetypes(header, j);
        assert next[header[k]] == profiles[header[k]];
      } else {
        assert next[header[k]] == profile;
      }
    }
  }

  /** Read columns `j` onwards into `profiles`, which already holds
      columns 0 .. `j - 1`. */
  method LoadDemandColumns(table: Table, parse: string -> Option<real>, profiles: ProfileMap, j: nat)
    returns (r: Result<ProfileMap, LoadError>)
    requires |table| > 0 && j <= |table[0]|
    requires profiles.Keys == Usetypes(table[0], j)
    requires forall k :: 0 <= k < j ==> ColumnOk(table, k, 1, parse)
    requires forall k :: 0 <= k < j && LastWithHeader(table[0], k, j) ==>
      profiles[table[0][k]].ProfileUsetype == table[0][k] && IsColumn(profiles[table[0][k]].HourlyFraction, table, k, 1, parse)
    ensures r.Success? <==> forall k :: 0 <= k < |table[0]| ==> ColumnOk(table, k, 1, parse)
    ensures r.Success? ==> r.value.Keys == Usetypes(table[0], |table[0]|)
    ensures r.Success? ==> forall k :: 0 <= k < |table[0]| && LastWithHeader(table[0], k, |table[0]|) ==>
      && r.value[table[0][k]].ProfileUsetype == table[0][k]
      && IsColumn(r.value[table[0][k]].HourlyFraction, table, k, 1, parse)
    ensures r.Failure? ==>
      exists k :: 0 <= k < |table[0]| && FirstCellFault(table, k, 1, parse, r.error)
        && forall k' :: 0 <= k' < k ==> ColumnOk(table, k', 1, parse)
    decreases |table[0]| - j
  {
    var header := table[0];
    if j == |header| {
      return Success(profiles);
    }
    var column := LoadColumn(table, j, 1, parse);
    if column.Failure? {
      return Failure(column.error);
    }
    var profile := NewProfile(header[j]).(HourlyFraction := column.value);
    DemandStep(table, parse, profiles, j, profile);
    r := LoadDemandColumns(table, parse, profiles[header[j] := profile], j + 1);
  }

  /** Some column with the header of column `k`, at or after it, is the
      last one carrying that header. */
  lemma {:induction false} LastColumnExists(header: seq<string>, k: nat)
    requires k < |header|
    ensures exists k' :: k <= k' < |header| && header[k'] == header[k] && LastWithHeader(header, k', |header|)
    decreases |header| - k
  {
    if !LastWithHeader(header, k, |header|) {
      var k' :| k < k' < |header| && header[k'] == header[k];
      LastColumnExists(header, k');
    }
  }

  /** A map keyed by the header cells, each key's profile read from the
      last column carrying it, is what the workers look usetypes up in:
      every profile carries its own usetype and spans `Hrs` hours. */
  lemma DemandProfilesSpan(table: Table, parse: string -> Option<real>, m: ProfileMap)
    requires |table| > 0 && m.Keys == Usetypes(table[0], |table[0]|)
    requires forall j :: 0 <= j < |table[0]| && LastWithHeader(table[0], j, |table[0]|) ==>
      m[table[0][j]].ProfileUsetype == table[0][j] && IsColumn(m[table[0][j]].HourlyFraction, table, j, 1, parse)
    ensures ProfilesSpan(m, Hrs)
    ensures forall u :: u in m ==> m[u].ProfileUsetype == u
  {
    forall u | u in m
      ensures |m[u].HourlyFraction| == Hrs && m[u].ProfileUsetype == u
    {
      var j :| 0 <= j < |table[0]| && table[0][j] == u;
      LastColumnExists(table[0], j);
    }
  }

  /** LoadDemandProfileData: one profile per column, keyed by the column's
      header cell, a later column replacing an earlier one with the same
      header (sync.Map.Store). */
  method LoadDemandProfileData(table: Table, parse: string -> Option<real>)
    returns (r: Result<ProfileMap, LoadError>)
    ensures |table| == 0 ==> r == Failure(EmptyTable)
    ensures |table| > 0 ==>
      (r.Success? <==> forall j :: 0 <= j < |table[0]| ==> ColumnOk(table, j, 1, parse))
    ensures r.Success? ==> |table| > 0 && r.value.Keys == Usetypes(table[0], |table[0]|)
    ensures r.Success? ==> forall j :: 0 <= j < |table[0]| && LastWithHeader(table[0], j, |table[0]|) ==>
      && r.value[table[0][j]].ProfileUsetype == table[0][j]
      && IsColumn(r.value[table[0][j]].HourlyFraction, table, j, 1, parse)
    ensures r.Failure? && |table| > 0 ==>
      exists j :: 0 <= j < |table[0]| && FirstCellFault(table, j, 1, parse, r.error)
        && forall k :: 0 <= k < j ==> ColumnOk(table, k, 1, parse)
    ensures r.Success? ==> ProfilesSpan(r.value, Hrs) && forall u :: u in r.value ==> r.value[u].ProfileUsetype == u
  {
    if |table| == 0 {
      return Failure(EmptyTable);
    }
    assert Usetypes(table[0], 0) == {};
    r := LoadDemandColumns(table, parse, map[], 0);
    if r.Success? {
      DemandProfilesSpan(table, parse, r.value);
    }
  }

  // ---------------------------------------------------------------------
  // Circuit groups

  /** What the group loaders return: the number of groups reported (rows
      minus header rows), the pool of `Cnt` slots, and the dispatch queue of
      slot indices in row order. Generic in the group record so that the
      single-profile variant shares it. */
  datatype GroupLoad<G> = GroupLoad(groups: int, pool: seq<Option<G>>, queue: seq<int>)

  /** What goes wrong, if anything, on group row `i`: cells 0 and 1 must
      exist, the count (cell 1) and then the id (cell 0) must parse, the
      count must not be negative (make(chan) panics), slot id - 1 must exist,
      and the dispatch channel must still have room. */
  function GroupRowFault(table: Table, i: nat, skip: nat, atoi: string -> Option<int>): Option<LoadError>
    requires skip <= i < |table|
  {
    var row := table[i];
    if |row| < 2 then Some(ShortRow(i, |row|))
    else if atoi(row[1]).None? then Some(BadNumber(i, 1))
    else if atoi(row[0]).None? then Some(BadNumber(i, 0))
    else if atoi(row[1]).value < 0 then Some(NegativeCount(i))
    else if !(1 <= atoi(row[0]).value <= Cnt) then Some(IdOutOfRange(i, atoi(row[0]).value))
    else if i - skip >= Cnt then Some(QueueFull(i))
    else None
  }

  /** Group rows `skip` .. `n - 1` can all be read. */
  ghost predicate GroupRowsOk(table: Table, skip: nat, n: nat, atoi: string -> Option<int>)
    requires n <= |table|
  {
    forall i :: skip <= i < n ==> GroupRowFault(table, i, skip, atoi).None?
  }

  /** The id of a readable group row. */
  function GroupKey(table: Table, i: nat, skip: nat, atoi: string -> Option<int>): (key: int)
    requires skip <= i < |table| && GroupRowFault(table, i, skip, atoi).None?
    ensures 1 <= key <= Cnt
  {
    atoi(table[i][0]).value
  }

  /** The id cell of a readable group row, kept as the group's id string. */
  function GroupId(table: Table, i: nat, skip: nat, atoi: string -> Option<int>): string
    requires skip <= i < |table| && GroupRowFault(table, i, skip, atoi).None?
  {
    table[i][0]
  }

  /** The parcel count of a readable group row. */
  function GroupCount(table: Table, i: nat, skip: nat, atoi: string -> Option<int>): nat
    requires skip <= i < |table| && GroupRowFault(table, i, skip, atoi).None?
  {
    atoi(table[i][1]).value
  }

  /** Row `i` is the last of rows `skip` .. `n - 1` carrying its id. */
  ghost predicate LastWithKey(table: Table, skip: nat, i: nat, n: nat, atoi: string -> Option<int>)
    requires skip <= i < n <= |table| && GroupRowsOk(table, skip, n, atoi)
  {
    forall k :: i < k < n ==> GroupKey(table, k, skip, atoi) != GroupKey(table, i, skip, atoi)
  }

  /** `e` is the fault of the first unreadable group row. */
  ghost predicate FirstGroupFault(table: Table, skip: nat, atoi: string -> Option<int>, e: LoadError) {
    exists i :: skip <= i < |table| && GroupRowFault(table, i, skip, atoi) == Some(e)
      && GroupRowsOk(table, skip, i, atoi)
  }

  /** Row `k` is a group row whose id cell parses to `id` and whose count
      cell parses to a count that is not negative. */
  ghost predicate RowNames(table: Table, skip: nat, atoi: string -> Option<int>, k: int, id: int) {
    && skip <= k < |table| && |table[k]| >= 2
    && atoi(table[k][0]) == Some(id) && atoi(table[k][1]).Some? && atoi(table[k][1]).value >= 0
  }

  /** Slot `s` holds the group `mk` makes of some row with id s + 1. */
  ghost predicate FilledByRow<G>(table: Table, skip: nat, atoi: string -> Option<int>, mk: (string, nat) -> G,
                                 pool: seq<Option<G>>, s: nat)
    requires s < |pool| && pool[s].Some?
  {
    exists k :: RowNames(table, skip, atoi, k, s + 1) && pool[s].value == mk(table[k][0], atoi(table[k][1]).value)
  }

  /** `rows[s]` is the row with id s + 1 whose group fills slot `s`, for
      every filled slot. */
  ghost predicate RowsFill<G>(table: Table, skip: nat, atoi: string -> Option<int>, mk: (string, nat) -> G,
                              pool: seq<Option<G>>, rows: seq<nat>)
  {
    && |pool| == |rows|
    && forall s :: 0 <= s < |pool| && pool[s].Some? ==>
      RowNames(table, skip, atoi, rows[s], s + 1) && pool[s].value == mk(table[rows[s]][0], atoi(table[rows[s]][1]).value)
  }

  /** Loading row `i` into its slot, and recording it as that slot's row,
      keeps every filled slot accounted for. */
  lemma RowsFillStep<G>(table: Table, skip: nat, i: nat, atoi: string -> Option<int>, mk: (string, nat) -> G,
                        pool: seq<Option<G>>, rows: seq<nat>)
    requires skip <= i < |table| && GroupRowFault(table, i, skip, atoi).None? && |pool| == Cnt
    requires RowsFill(table, skip, atoi, mk, pool, rows)
    ensures var key := GroupKey(table, i, skip, atoi);
      RowsFill(table, skip, atoi, mk, pool[key - 1 := Some(mk(GroupId(table, i, skip, atoi), GroupCount(table, i, skip, atoi)))],
               rows[key - 1 := i])
  {
    assert RowNames(table, skip, atoi, i, GroupKey(table, i, skip, atoi));
  }

  /** The recorded rows witness that every filled slot was filled by a row. */
  lemma RowsFillWitness<G>(table: Table, skip: nat, atoi: string -> Option<int>, mk: (string, nat) -> G,
                           pool: seq<Option<G>>, rows: seq<nat>)
    requires RowsFill(table, skip, atoi, mk, pool, rows)
    ensures forall s :: 0 <= s < |pool| && pool[s].Some? ==> FilledByRow(table, skip, atoi, mk, pool, s)
  {
    forall s | 0 <= s < |pool| && pool[s].Some?
      ensures FilledByRow(table, skip, atoi, mk, pool, s)
    {
      var k := rows[s];
      assert RowNames(table, skip, atoi, k, s + 1);
    }
  }

  /** The group-loading step shared by both programs: a fresh group
      `mk(id cell, count)` in slot id - 1 for every row after the `skip`
      header rows, its slot index queued for dispatch. A later row with the
      same id overwrites the slot but its index is queued again. */
  method LoadGroups<G>(table: Table, skip: nat, atoi: string -> Option<int>, mk: (string, nat) -> G)
    returns (r: Result<GroupLoad<G>, LoadError>)
    ensures r.Success? <==> GroupRowsOk(table, skip, |table|, atoi)
    ensures r.Failure? ==> FirstGroupFault(table, skip, atoi, r.error)
    ensures r.Success? ==> r.value.groups == |table| - skip && |r.value.pool| == Cnt
    ensures r.Success? ==> |r.value.queue| == if skip <= |table| then |table| - skip else 0
    ensures r.Success? ==> forall i :: skip <= i < |table| ==>
      r.value.queue[i - skip] == GroupKey(table, i, skip, atoi) - 1
    ensures r.Success? ==> forall s :: 0 <= s < Cnt ==> (r.value.pool[s].Some? <==> s in r.value.queue)
    ensures r.Success? ==> forall i :: skip <= i < |table| && LastWithKey(table, skip, i, |table|, atoi) ==>
      r.value.pool[GroupKey(table, i, skip, atoi) - 1] == Some(mk(GroupId(table, i, skip, atoi), GroupCount(table, i, skip, atoi)))
    ensures r.Success? ==> forall s :: 0 <= s < Cnt && r.value.pool[s].Some? ==> FilledByRow(table, skip, atoi, mk, r.value.pool, s)
  {
    var pool: seq<Option<G>> := seq(Cnt, _ => None);
    var queue: seq<int> := [];
    ghost var rows: seq<nat> := seq(Cnt, _ => 0);
    var i := skip;
    while i < |table|
      invariant skip <= i && (i <= |table| || i == skip)
      invariant |pool| == Cnt
      invariant i <= |table| ==> GroupRowsOk(table, skip, i, atoi)
      invariant |queue| == i - skip
      invariant forall k :: skip <= k < i ==> queue[k - skip] == GroupKey(table, k, skip, atoi) - 1
      invariant forall s :: 0 <= s < Cnt ==> (pool[s].Some? <==> s in queue)
      invariant forall k :: skip <= k < i && LastWithKey(table, skip, k, i, atoi) ==>
        pool[GroupKey(table, k, skip, atoi) - 1] == Some(mk(GroupId(table, k, skip, atoi), GroupCount(table, k, skip, atoi)))
      invariant RowsFill(table, skip, atoi, mk, pool, rows)
      decreases |table| - i
    {
      var fault := GroupRowFault(table, i, skip, atoi);
      if fault.Some? {
        return Failure(fault.value);
      }
      var key := GroupKey(table, i, skip, atoi);
      GroupStep(table, skip, i, atoi, mk, pool, queue);
      RowsFillStep(table, skip, i, atoi, mk, pool, rows);
      pool := pool[key - 1 := Some(mk(GroupId(table, i, skip, atoi), GroupCount(table, i, skip, atoi)))];
      rows := rows[key - 1 := i];
      queue := queue + [key - 1];
      i := i + 1;
    }
    RowsFillWitness(table, skip, atoi, mk, pool, rows);
    return Success(GroupLoad(|table| - skip, pool, queue));
  }

  /** Loading row `i` keeps the loop's account of the pool and the queue. */
  lemma GroupStep<G>(table: Table, skip: nat, i: nat, atoi: string -> Option<int>, mk: (string, nat) -> G,
                     pool: seq<Option<G>>, queue: seq<int>)
    requires skip <= i < |table| && GroupRowsOk(table, skip, i + 1, atoi)
    requires |pool| == Cnt && |queue| == i - skip
    requires forall s :: 0 <= s < Cnt ==> (pool[s].Some? <==> s in queue)
    requires forall k :: skip <= k < i && LastWithKey(table, skip, k, i, atoi) ==>
      pool[GroupKey(table, k, skip, atoi) - 1] == Some(mk(GroupId(table, k, skip, atoi), GroupCount(table, k, skip, atoi)))
    ensures var key := GroupKey(table, i, skip, atoi);
      var pool' := pool[key - 1 := Some(mk(GroupId(table, i, skip, atoi), GroupCount(table, i, skip, atoi)))];
      && (forall s :: 0 <= s < Cnt ==> (pool'[s].Some? <==> s in queue + [key - 1]))
      && (forall k :: skip <= k < i + 1 && LastWithKey(table, skip, k, i + 1, atoi) ==>
            pool'[GroupKey(table, k, skip, atoi) - 1] == Some(mk(GroupId(table, k, skip, atoi), GroupCount(table, k, skip, atoi))))
  {
    var key := GroupKey(table, i, skip, atoi);
    var pool' := pool[key - 1 := Some(mk(GroupId(table, i, skip, atoi), GroupCount(table, i, skip, atoi)))];
    forall k | skip <= k < i + 1 && LastWithKey(table, skip, k, i + 1, atoi)
      ensures pool'[GroupKey(table, k, skip, atoi) - 1] == Some(mk(GroupId(table, k, skip, atoi), GroupCount(table, k, skip, atoi)))
    {
      if k < i {
        assert GroupKey(table, i, skip, atoi) != GroupKey(table, k, skip, atoi);
        assert LastWithKey(table, skip, k, i, atoi);
      }
    }
  }

  /** `g` is a group as the header-skipping loader puts it in slot `s`: its
      id cell parses to s + 1, its buffer is empty and its aggregates are
      zero over `Hrs` hours. */
  ghost predicate FreshGroup(g: CircuitGroup, s: int, atoi: string -> Option<int>) {
    && atoi(g.CircuitGroupID) == Some(s + 1)
    && g.Parcels == [] && g.AnnualNetSupply == 0.0 && g.MaxHourlyNetSupply == 0.0
    && |g.HourlyNetSupply| == Hrs
  }

  /** A pool whose every filled slot holds the NewCircuitGroup of a row
      naming that slot holds only fresh groups. */
  lemma FreshSlots(table: Table, atoi: string -> Option<int>, pool: seq<Option<CircuitGroup>>)
    requires forall s :: 0 <= s < |pool| && pool[s].Some? ==>
      FilledByRow(table, 1, atoi, (id: string, count: nat) => NewCircuitGroup(id, count), pool, s)
    ensures forall s :: 0 <= s < |pool| && pool[s].Some? ==> FreshGroup(pool[s].value, s, atoi)
    ensures BuffersWithinCount(pool)
  {
    forall s | 0 <= s < |pool| && pool[s].Some?
      ensures FreshGroup(pool[s].value, s, atoi)
    {
      var k :| RowNames(table, 1, atoi, k, s + 1) && pool[s].value == NewCircuitGroup(table[k][0], atoi(table[k][1]).value);
    }
  }

  /** LoadCircuitGroupData: the header row is skipped and every group row
      makes a NewCircuitGroup. The reported group count is the row count
      minus one, so -1 for an empty file. Every filled slot holds a fresh
      group whose id cell names that slot, with an empty buffer and zero
      aggregates, which is what the parcel loader requires of the pool. */
  method LoadCircuitGroupData(table: Table, atoi: string -> Option<int>)
    returns (r: Result<GroupLoad<CircuitGroup>, LoadError>)
    ensures r.Success? <==> GroupRowsOk(table, 1, |table|, atoi)
    ensures r.Failure? ==> FirstGroupFault(table, 1, atoi, r.error)
    ensures r.Success? ==> r.value.groups == |table| - 1 && |r.value.pool| == Cnt
    ensures r.Success? ==> |r.value.queue| == if |table| == 0 then 0 else |table| - 1
    ensures r.Success? ==> forall i :: 1 <= i < |table| ==> r.value.queue[i - 1] == GroupKey(table, i, 1, atoi) - 1
    ensures r.Success? ==> forall s :: 0 <= s < Cnt ==> (r.value.pool[s].Some? <==> s in r.value.queue)
    ensures r.Success? ==> forall i :: 1 <= i < |table| && LastWithKey(table, 1, i, |table|, atoi) ==>
      r.value.pool[GroupKey(table, i, 1, atoi) - 1]
        == Some(NewCircuitGroup(GroupId(table, i, 1, atoi), GroupCount(table, i, 1, atoi)))
    ensures r.Success? ==> forall s :: 0 <= s < Cnt && r.value.pool[s].Some? ==> FreshGroup(r.value.pool[s].value, s, atoi)
    ensures r.Success? ==> BuffersWithinCount(r.value.pool)
  {
    r := LoadGroups(table, 1, atoi, (id: string, count: nat) => NewCircuitGroup(id, count));
    if r.Success? {
      FreshSlots(table, atoi, r.value.pool);
    }
  }

  // ---------------------------------------------------------------------
  // Parcels

  /** The scrub rule applied to each parcel row: a negative demand is a
      missing one and becomes zero, and a parcel without demand gets no
      supply either. */
  function Scrub(supply: real, demand: real): (r: (real, real))
    ensures r.1 >= 0.0 && (r.1 == 0.0 ==> r.0 == 0.0)
    ensures demand > 0.0 ==> r == (supply, demand)
    ensures demand <= 0.0 ==> r == (0.0, 0.0)
  {
    var demand' := if demand < 0.0 then 0.0 else demand;
    var supply' := if demand' == 0.0 then 0.0 else supply;
    (supply', demand')
  }

  /** A parcel as the loader leaves it: demand not negative, and no supply
      without demand. */
  ghost predicate Scrubbed(p: Parcel) {
    p.AnnualDemand >= 0.0 && (p.AnnualDemand == 0.0 ==> p.AnnualSupply == 0.0)
  }

  /** Scrubbing twice is scrubbing once. */
  lemma ScrubIdempotent(supply: real, demand: real)
    ensures Scrub(Scrub(supply, demand).0, Scrub(supply, demand).1) == Scrub(supply, demand)
  {
  }

  /** Scrubbing leaves alone exactly the pairs that are already scrubbed. */
  lemma ScrubFixesExactlyScrubbed(supply: real, demand: real)
    ensures Scrub(supply, demand) == (supply, demand) <==>
      (demand >= 0.0 && (demand == 0.0 ==> supply == 0.0))
  {
  }

  /** Data row `i` of the parcel table: id, usetype and group id cells are
      read, then supply (cell 3) and demand (cell 4) are parsed, scrubbed,
      and the group id is parsed as the routing key. */
  function ParseParcelRow(row: seq<string>, i: nat, pf: string -> Option<real>, atoi: string -> Option<int>)
    : (r: Result<(int, Parcel), LoadError>)
    ensures r.Success? <==> |row| >= 5 && pf(row[3]).Some? && pf(row[4]).Some? && atoi(row[2]).Some?
    ensures r.Success? ==>
      && r.value.0 == atoi(row[2]).value
      && r.value.1.ParcelID == row[0] && r.value.1.ParcelUsetype == row[1] && r.value.1.CircuitGroupID == row[2]
      && (r.value.1.AnnualSupply, r.value.1.AnnualDemand) == Scrub(pf(row[3]).value, pf(row[4]).value)
    ensures r.Failure? ==> r.error in {ShortRow(i, |row|), ShortRow(i, 4), BadNumber(i, 3), BadNumber(i, 4), BadNumber(i, 2)}
  {
    if |row| < 4 then Failure(ShortRow(i, |row|))
    else if pf(row[3]).None? then Failure(BadNumber(i, 3))
    else if |row| < 5 then Failure(ShortRow(i, 4))
    else if pf(row[4]).None? then Failure(BadNumber(i, 4))
    else
      var (supply, demand) := Scrub(pf(row[3]).value, pf(row[4]).value);
      if atoi(row[2]).None? then Failure(BadNumber(i, 2))
      else Success((atoi(row[2]).value, NewParcel(row[0], row[1], row[2], supply, demand)))
  }

  /** The row parser the parcel loader hands to DeliverRows. */
  function ParcelRows(pf: string -> Option<real>, atoi: string -> Option<int>): RowParser<Parcel> {
    (row: seq<string>, i: nat) => ParseParcelRow(row, i, pf, atoi)
  }

  /** The parcel channels of a pool, slot by slot. */
  function ChannelsOf(pool: Pool): (chans: Channels<Parcel>)
    ensures |chans| == |pool|
    ensures forall s :: 0 <= s < |pool| ==> (chans[s].Some? <==> pool[s].Some?)
    ensures forall s :: 0 <= s < |pool| && pool[s].Some? ==>
      chans[s].value == Channel(pool[s].value.ParcelCount, pool[s].value.Parcels)
  {
    seq(|pool|, s requires 0 <= s < |pool| =>
      if pool[s].None? then None else Some(Channel(pool[s].value.ParcelCount, pool[s].value.Parcels)))
  }

  /** The pool once every group's buffer holds what its channel holds. */
  function WithBuffers(pool: Pool, chans: Channels<Parcel>): (out: Pool)
    requires |chans| == |pool|
    requires forall s :: 0 <= s < |pool| ==> (chans[s].Some? <==> pool[s].Some?)
    ensures |out| == |pool|
    ensures forall s :: 0 <= s < |pool| && pool[s].None? ==> out[s].None?
    ensures forall s :: 0 <= s < |pool| && pool[s].Some? ==>
      out[s] == Some(pool[s].value.(Parcels := chans[s].value.items))
  {
    seq(|pool|, s requires 0 <= s < |pool| =>
      if pool[s].None? then None else Some(pool[s].value.(Parcels := chans[s].value.items)))
  }

  /** Once every row went through, each group's buffer is its old buffer
      followed by the parcels routed to it, and still within its count. */
  lemma DeliveredBuffers(pool: Pool, table: Table, lo: nat, parse: RowParser<Parcel>)
    requires Deliverable(ChannelsOf(pool), table, lo, |table|, parse)
    ensures BuffersWithinCount(WithBuffers(pool, Delivered(ChannelsOf(pool), table, lo, |table|, parse)))
    ensures forall s :: 0 <= s < |pool| && pool[s].Some? ==>
      WithBuffers(pool, Delivered(ChannelsOf(pool), table, lo, |table|, parse))[s]
        == Some(pool[s].value.(Parcels := pool[s].value.Parcels + Routed(table, lo, |table|, s + 1, parse)))
  {
    var chans := ChannelsOf(pool);
    var d := Delivered(chans, table, lo, |table|, parse);
    var out := WithBuffers(pool, d);
    forall s | 0 <= s < |pool| && pool[s].Some?
      ensures out[s] == Some(pool[s].value.(Parcels := pool[s].value.Parcels + Routed(table, lo, |table|, s + 1, parse)))
      ensures |out[s].value.Parcels| <= out[s].value.ParcelCount
    {
      var routed := Routed(table, lo, |table|, s + 1, parse);
      assert chans[s].value == Channel(pool[s].value.ParcelCount, pool[s].value.Parcels);
      assert d[s].value.items == pool[s].value.Parcels + routed;
      assert |pool[s].value.Parcels| + |routed| <= pool[s].value.ParcelCount;
    }
  }

  /** LoadParcelData: every data row's parcel is sent, in row order, to the
      channel of the group its id names. */
  method LoadParcelData(pool: Pool, table: Table, pf: string -> Option<real>, atoi: string -> Option<int>)
    returns (r: Result<Pool, LoadError>)
    requires BuffersWithinCount(pool)
    ensures r.Success? <==> Deliverable(ChannelsOf(pool), table, 1, |table|, ParcelRows(pf, atoi))
    ensures r.Success? ==> |r.value| == |pool| && BuffersWithinCount(r.value)
    ensures r.Success? ==> forall s :: 0 <= s < |pool| ==>
      && (pool[s].None? ==> r.value[s].None?)
      && (pool[s].Some? ==> r.value[s] == Some(pool[s].value.(Parcels :=
            pool[s].value.Parcels + Routed(table, 1, |table|, s + 1, ParcelRows(pf, atoi)))))
    ensures r.Failure? ==> exists i ::
      && 1 <= i < |table|
      && Deliverable(ChannelsOf(pool), table, 1, i, ParcelRows(pf, atoi))
      && RowError(ChannelsOf(pool), table, 1, i, ParcelRows(pf, atoi)) == Some(r.error)
  {
    var rows := ParcelRows(pf, atoi);
    var chans := ChannelsOf(pool);
    var sent := DeliverRows(chans, table, 1, rows);
    if sent.Failure? {
      return Failure(sent.error);
    }
    DeliveredBuffers(pool, table, 1, rows);
    return Success(WithBuffers(pool, sent.value));
  }

  /** Each parcel routed to group id `key` names that group, and is
      scrubbed. */
  lemma {:induction false} RoutedParcelsBelong(table: Table, lo: nat, hi: nat, key: int,
                                                pf: string -> Option<real>, atoi: string -> Option<int>)
    requires hi <= |table| && RowsParse(table, lo, hi, ParcelRows(pf, atoi))
    ensures forall p :: p in Routed(table, lo, hi, key, ParcelRows(pf, atoi)) ==>
      atoi(p.CircuitGroupID) == Some(key) && Scrubbed(p)
    decreases hi
  {
    if hi > lo {
      assert RowsParse(table, lo, hi - 1, ParcelRows(pf, atoi));
      RoutedParcelsBelong(table, lo, hi - 1, key, pf, atoi);
    }
  }
}
