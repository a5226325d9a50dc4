# prioritizationTool — a Dafny model of the net-supply core

prioritizationTool ranks electric circuit groups by how much rooftop-solar
energy they would push back onto the grid. For every circuit group it takes
the group's parcels and builds two matrices, with one row per hour and one
column per parcel:

- a supply matrix: the shared hourly supply profile scaled by each parcel's
  annual supply;
- a demand matrix: the hourly demand profile of the parcel's usetype scaled by
  its annual demand.

It subtracts the demand matrix from the supply matrix and reduces the result
to three values:

- the net supply of every hour;
- the annual total, in MWh (times 0.001);
- the peak hour, in MW (times 0.001).

Before that, the loaders turn CSV tables into the inputs:

- profile vectors;
- a usetype → profile store;
- a pool of `cnt` circuit-group slots with a queue of slot indices to dispatch;
- parcels, buffered in each group's channel.

This project models that core with exact reals in place of float64. It covers
the package in `pkg/`, whose code is repeated in `pkg/main.go`, and the older
single-demand-profile tool in `prioritizationTool.go`.

Modules, following the program's structure:

- `Types`: the records of `pkg/types.go` and the constants `Hrs` = 8760 and `Cnt` = 1752.
- `Generators`: the constructors.
- `Config`: pool sizing.
- `Sums` and `Matrices`: the gonum arithmetic on `seq<real>` and `seq<seq<real>>`.
- `Workers`: the per-group reduction and one worker step on a pool. Every lemma is stated for any number of hours, not only 8760.
- `Dispatch`: the queue processed one index at a time.
- `Tables`, `Channels` and `Io`: the table-to-value logic of the four pkg loaders.
- `Legacy` and `LegacyIo`: the single-profile worker and its loaders.

Conventions:

- **Failures are values.** Each `os.Exit`, runtime panic and forever-blocking
  channel operation in the source becomes an error value, not a precondition.
  - Worker failures are `Workers.Fault`: the key is out of range, the slot is
    nil, the group has a zero parcel count (`mat.NewDense` panics), fewer
    parcels are buffered than the count says, or a usetype has no profile.
  - Loader failures are `Tables.LoadError`: an empty table, a missing cell,
    an unparsable number, a profile row past the last hour, a negative count,
    an id outside `1..cnt`, a full dispatch queue, a nil slot, or a full parcel
    channel.
  - Each loader's contract says exactly which row fails first, and with which
    error.
- **Preconditions only state what holds by construction.** The operations
  carry only `requires` clauses that are true whenever the code runs:
  - the supply profile is non-empty;
  - every stored profile, and the single demand profile of the older tool,
    spans the same hours as the supply profile (the profile loaders ensure
    `hrs` hours each);
  - no channel buffers more than its capacity (`Io.LoadCircuitGroupData`
    ensures it of the pool it builds).

  Lemmas may assume more, for example that a slot is one its worker can
  finish (`Workers.Ready`).
- **Number parsing is a parameter.** `strconv.ParseFloat` and `strconv.Atoi`
  are passed in as functions that return `Option`; `None` stands for the
  error branch.
- **Channels are queues.** A channel is modelled as the first-in, first-out
  sequence of values it buffers, with a capacity.
- **A group with zero parcels fails.** A group whose count is 0 makes
  `mat.NewDense` panic on a zero dimension (pkg/workers.go:31-35), so the
  model reports `EmptyGroup`.

## Model

| member | source | states |
|---|---|---|
| `Generators.NewProfile` | pkg/generators.go:8-20 | the profile keeps the given usetype and its hourly fractions are `hrs` zeros (also pkg/main.go:67-80) |
| `Generators.NewParcel` | pkg/generators.go:24-37 | all five fields are the arguments, unchanged |
| `Generators.NewCircuitGroup` | pkg/generators.go:41-63 | id and count copied, channel empty with capacity `parcelCount`, both aggregates 0, hourly vector of `hrs` zeros (also pkg/main.go:100-123) |
| `Config.MaxParallelism` | pkg/config.go:8-20 | the result is at most both inputs, equal to one of them, and at least 1 when both are (also pkg/main.go:554-566, prioritizationTool.go:356-367) |
| `Sums.MaxOf` | pkg/workers.go:74 | mat.Max: an upper bound of every entry that some entry attains |
| `Matrices.Outer` | pkg/workers.go:57-58 | Mul of the hourly column by the per-parcel row: cell (h, i) is column[h] times row[i] |
| `Matrices.FromColumns` | pkg/workers.go:54 | SetCol: cell (h, i) is entry h of the i-th column |
| `Matrices.MatSub` | pkg/workers.go:61 | Sub: cell-wise difference of two same-shaped matrices |
| `Matrices.MatSumIsTotalOfRowSums` | pkg/workers.go:64-71 | the sum over every cell equals the sum of the per-row sums |
| `Matrices.RowTotalIsColumnTotal` | pkg/workers.go:64 | a matrix totalled by rows equals it totalled by columns |
| `Workers.Drain` | pkg/workers.go:39-51 | receiving `ParcelCount` parcels succeeds exactly when that many are buffered and each one's usetype has a profile; on success it yields the buffer's first `ParcelCount` parcels in order; on failure it reports the first receive that blocks or the first missing usetype |
| `Workers.DemandColumn` | pkg/workers.go:48-51 | a parcel's demand column is its usetype's profile scaled by its annual demand |
| `Workers.NetMatrix` | pkg/workers.go:45-61 | cell (h, i) is supply[h] times parcel i's supply minus its usetype profile at h times its demand |
| `Workers.Reduce` | pkg/workers.go:64-74 | one hourly value per hour; the stored peak is at least 0.001 times every hourly value and equals 0.001 times one of them |
| `Workers.HourlyIsSumOfParcelNets` | pkg/workers.go:67-71 | hourly[h] is the sum, over the parcels in dequeue order, of each parcel's net supply at h |
| `Workers.HourContributionsSplit` | pkg/workers.go:57-61 | the row of hour h is the supply row scaled by supply[h] minus the demand row of hour h |
| `Workers.ContributionsClosedForm` | pkg/workers.go:45-61 | the row of hour h totals supply[h] times the total annual supply minus the parcels' demands at h |
| `Workers.HourlyClosedForm` | pkg/workers.go:45-71 | hourly[h] = supply[h] · Σ supplies − Σ profile(usetype)[h] · demand |
| `Workers.AnnualIsScaledHourlyTotal` | pkg/workers.go:64-71 | the annual value is 0.001 times the sum of the hourly values |
| `Workers.NetColumnTotal` | pkg/workers.go:45-61 | column i of the net matrix totals parcel i's yearly net supply |
| `Workers.AnnualIsSumOfParcelAnnuals` | pkg/workers.go:45-64 | the annual value is 0.001 times the sum of the parcels' yearly net supplies, parcel i's being its supply times the total of the supply profile minus its demand times the total of its usetype's profile |
| `Workers.AppendParcelAddsItsNet` | pkg/workers.go:39-71 | one more parcel at the end of the buffer adds exactly its own net supply to every hour |
| `Workers.IdleParcelIsNeutral` | pkg/workers.go:45-74 | a parcel with zero supply and zero demand leaves hourly, annual and peak values unchanged |
| `Workers.Worker` | pkg/workers.go:27-74 | succeeds exactly when the key is in range, the slot is non-nil, the count is at least 1, that many parcels are buffered and each has a profile; otherwise the first of an out-of-range key, a nil slot, a zero count (NewDense panics) or the first receive that blocks or finds no profile; on success only slot `key` changes, its id and count are kept, and exactly `ParcelCount` parcels leave the front of its channel (same code at pkg/main.go:593-640) |
| `Workers.WorkerWritesNetSupply` | pkg/workers.go:64-74 | for a slot the worker can finish, the group written back holds the per-hour sums over the received parcels, annual = 0.001 · Σ hourly = 0.001 · Σ parcel yearly nets, and a peak at least, and attaining, 0.001 times every hourly value (same code at pkg/main.go:630-640) |
| `Dispatch.RunQueue` | pkg/workers.go:24-27 | processing the queue keeps the pool's size and leaves unqueued slots untouched |
| `Dispatch.EachIndexProcessedOnce` | pkg/workers.go:24-77 | with distinct queued indices whose slots the worker can finish, the run succeeds, every queued slot ends as its own worker leaves it and every other slot is unchanged |
| `Dispatch.DispatchOrderIrrelevant` | pt.go:93-113 | any two orders of the same distinct indices give the same pool, so how the goroutines share the queue does not matter |
| `Dispatch.SecondDispatchBlocks` | pkg/io.go:210-211 | when a group's channel holds exactly its parcel count, its worker succeeds, and a second dispatch of the same index (a group id listed twice) waits on an empty channel |
| `Io.LoadColumn` | pkg/io.go:44-62 | succeeds exactly when every data row's cell is present, parses and fits below `hrs`; the vector has data row i at hour i − skip and zeros elsewhere; else the first bad row's error |
| `Io.LoadSupplyProfileData` | pkg/io.go:16-72 | the header row is skipped and data row i becomes hour i − 1 of a `hrs`-long vector whose other hours stay 0 |
| `Io.LoadDemandProfileData` | pkg/io.go:100-142 | an empty table fails; otherwise the keys are the header cells and each key's profile is read from the last column carrying it, with that usetype and row i at hour i − 1; success exactly when every column reads; every loaded profile carries its own usetype and spans `hrs` hours |
| `Io.DemandProfilesSpan` | pkg/io.go:100-142 | a map keyed by the header cells, with each key's profile read from the last column carrying it, has every usetype's profile spanning `hrs` hours and carrying that usetype, which is what the worker's lookup at pkg/workers.go:45-51 needs |
| `Io.LoadGroups` | pkg/io.go:181-220 | the group-loading loop shared by both programs: fails exactly when some row misses a cell, fails to parse, has a negative count, an id outside 1..cnt, or overflows the queue, reporting the first such row; otherwise the count is rows − header rows, the queue is each row's id − 1 in file order, a slot is filled exactly when queued, slot k − 1 holds the group of the last row with id k, and every filled slot holds the group of some row naming it |
| `Io.LoadCircuitGroupData` | pkg/io.go:153-222 | with the header row skipped: the count is rows − 1 (−1 for an empty file), the queue has one entry per data row, slot k − 1 holds `NewCircuitGroup` of the last row with id k, and every filled slot's id cell parses to its slot number + 1, with an empty buffer, zero aggregates and `hrs` hours, so the pool meets the parcel loader's precondition |
| `Io.Scrub` | pkg/io.go:285-293 | demand ends non-negative and zero demand forces zero supply; positive demand keeps both values, non-positive demand zeroes both |
| `Io.ScrubIdempotent` | pkg/io.go:285-293 | scrubbing a scrubbed pair changes nothing |
| `Io.ScrubFixesExactlyScrubbed` | pkg/io.go:285-293 | a pair is left unchanged exactly when its demand is non-negative and zero demand comes with zero supply |
| `Io.ParseParcelRow` | pkg/io.go:261-303 | a row parses exactly when it has five cells, supply, demand and the group id parse; the parcel carries the id, usetype and group-id cells and the scrubbed values; the routing key is the parsed group id |
| `Io.LoadParcelData` | pkg/io.go:225-315 | succeeds exactly when every row parses, names an existing group and no channel overflows; then slot k − 1's buffer is its old buffer followed by the parcels naming k in file order and nothing else changes; else the first failing row's error (same code at pkg/main.go:368-413) |
| `Io.RoutedParcelsBelong` | pkg/io.go:296-303 | every parcel routed to group k carries a group id that parses to k and is scrubbed |
| `Channels.Send` | pkg/io.go:303 | the send fails for an id outside the pool, a nil slot or a full channel; otherwise it appends to that one channel only |
| `Channels.DeliverRows` | pkg/io.go:258-303 | sends every row's parcel in order; succeeds exactly when all rows are deliverable, and then gives each channel its routed parcels; else the first failing row's error |
| `Channels.StepDeliverable` | pkg/io.go:303 | sending one more row succeeds exactly when the longer prefix is still deliverable |
| `Channels.SendDelivers` | pkg/io.go:303 | a successful send leaves the channels as delivering the longer prefix describes |
| `Legacy.NewLegacyParcel` | prioritizationTool.go:41-53 | all four fields are the arguments, unchanged |
| `Legacy.NewLegacyGroup` | prioritizationTool.go:56-77 | id and count copied, channel empty, both aggregates 0 |
| `Legacy.LegacyNetMatrix` | prioritizationTool.go:398-409 | cell (h, i) is S[h] · sᵢ − D[h] · dᵢ: both matrices are outer products of a profile with the parcel vector |
| `Legacy.LegacyReduce` | prioritizationTool.go:412-425 | one hourly value per hour; the peak is at least 0.001 times every hourly value and equals 0.001 times one of them |
| `Legacy.LegacyHourClosedForm` | prioritizationTool.go:405-421 | hour h totals Σ sᵢ · S[h] − Σ dᵢ · D[h] |
| `Legacy.LegacyHourlyClosedForm` | prioritizationTool.go:405-421 | the hourly vector is S scaled by Σ sᵢ minus D scaled by Σ dᵢ |
| `Legacy.LegacyAnnualIsScaledHourlyTotal` | prioritizationTool.go:412-421 | the annual value is 0.001 times the sum of the hourly vector |
| `Legacy.LegacyNetIsSharedProfileNet` | prioritizationTool.go:398-409 | the single-profile net matrix equals the multi-profile one when every parcel's usetype maps to the one demand profile |
| `Legacy.LegacyAgreesWithSharedProfile` | prioritizationTool.go:386-425 | the single-profile reduction equals the multi-profile reduction on the same parcels under one shared demand profile |
| `Legacy.LegacyAnnualIsSumOfParcelAnnuals` | prioritizationTool.go:412 | the annual value is 0.001 times Σᵢ (sᵢ · Σ S − dᵢ · Σ D) |
| `Legacy.LegacyWorker` | prioritizationTool.go:386-425 | succeeds exactly when the key is in range, the slot is non-nil, the count is at least 1 and that many parcels are buffered; otherwise the first of those faults, never a usetype fault; on success only slot `key` changes and exactly `ParcelCount` parcels leave its channel |
| `Legacy.LegacyWorkerWritesNetSupply` | prioritizationTool.go:412-425 | for a slot the worker can finish, the group written back has annual = 0.001 · Σ hourly = 0.001 · Σ parcel yearly nets, and a peak at least, and attaining, 0.001 times the closed-form hourly vector; the hourly vector itself is not stored |
| `LegacyIo.LoadProfileData` | prioritizationTool.go:108-126 | no header: row i becomes hour i of a `hrs`-long vector, other hours 0; else the first bad row's error |
| `LegacyIo.LoadLegacyCircuitGroupData` | prioritizationTool.go:167-206 | every row is a group; the count equals the row count and the queue length, the queue is each id − 1 in file order, and slot k − 1 holds the last row with id k |
| `LegacyIo.ParseLegacyParcelRow` | prioritizationTool.go:247-286 | a row parses exactly when it has four cells, supply, demand and the group id parse; the parcel carries the id and group-id cells and the scrubbed values |
| `LegacyIo.LoadLegacyParcelData` | prioritizationTool.go:244-286 | every row is a parcel; succeeds exactly when all rows are deliverable, then slot k − 1's buffer gains the parcels naming k in file order and nothing else changes |

## Left out

- The goroutine pool, `sync.WaitGroup`, the close of the dispatch channel and the results channel. Dispatch is modelled sequentially: `Dispatch` shows that every queued index is processed once and that the order does not matter.
- The main loop starts `limit + 1` workers (`m <= limit`). Only the worker count differs, so the result is the same.
- File I/O, CSV splitting, `os.Exit`, logging, progress bars, flag parsing and `WriteCircuitGroupData`, including its 8-decimal formatting and the output file name.
- `strconv.ParseFloat` and `strconv.Atoi` are parameters and are not modelled.
- IEEE-754 rounding: values are exact reals, so NaN and infinities do not arise.
- gonum's internals. Only the arithmetic of `Mul`, `SetCol`, `Sub`, `Scale`, `Sum` and `Max` is modelled. The shape checks are not modelled, because the loaders always produce `hrs`-long vectors.
- `sync.Map`: an immutable `map`. `Add` calls `Store` (pkg/main.go:57-64), so a later column with the same header replaces an earlier one (pkg/io.go:142).
- Duplicate circuit-group ids are not rejected by the loaders. `Dispatch.SecondDispatchBlocks` shows the second dispatch of such an id waits forever.
