# A verified model of the compute benchmarks' hard parts

The repository measures GPU runtimes. Four of its parts have behaviour that is easy to get wrong, and
this project models those parts in Dafny and proves what they are for.

1. **The distributed heat solver.** A periodic mesh is split over a grid of worker processes ("ranks"),
   each with two padded sub-domain buffers and six halo buffers. `HeatGeometry` holds the rank topology
   and the facet index ranges (with uint32 wrap-around), `HeatKernels` the device kernels on flat storage,
   `HeatStep` one rank's timestep, `HeatRank` the same in imperative form, `HeatRefinement` all ranks
   against one global stencil, `HeatRaces` every order of work-items the command-list barriers allow,
   `HeatPackRaces` the sizes that race with the pack kernel as written, `HeatAsync` the concurrent machine
   of ranks, event barrier and halo cells, `HeatSchedules` what that machine does without
   extra ordering, and `HeatConservation` the conservation of heat.
2. **Parent and workers.** `Barrier` is the step relation of the parent, of workers that implement,
   drain, exit or die, and of the pipes between them, `WorkloadSync` both ends as the
   program writes them, `Measurements` and `Decimal` the text that travels back.
3. **Documentation printer and parser.** `DocsText`, `DocsPrinter`, `DocsParser`, `DocsRoundTrip` and
   `DocsMerge`: two programs that must agree on a line format, and the merge of several outputs.
4. **Arithmetic.** `BlitSizeAssigner`, `MathOperations` (on `Bits`), `Timestamps`, `RandomCache`,
   `ByteSize`, `Hex`; `Basics` and `LinearIndex` hold what the models share.

`dafny verify dfyconfig.toml` checks everything.

## What the proofs found

- **The pack kernel does not follow the documented storage order.** The index in
  `kernels/heat3d_workload.cl:58` adds `nPointsZ + 2` where the storage order described at
  `heat3d_workload_l0.cpp:27-37` (and every other kernel) multiplies by it. Both index expressions are
  modelled (`PackMode`: `AsWritten`, `Documented`). As written the kernel reads the wrong element at every
  point (`AsWrittenReadsEarlier`), so the solver depends on memory that initialisation never wrote and does
  not compute the global stencil for any grid, size, initial field or non-zero weight
  (`RefinesIffPacksItsFacets`). Packing then also races with the next facet's update; `RaceFreeIff` says for
  exactly which sizes, among them all cubes and every near-cube (`SquaresRace`, `NearCubesRace`). Everything
  else in the solver is proved right for the documented order.
- **Nothing orders a rank's unpacking before its own next facet update or before a neighbour's next send.**
  The concurrent machine has exactly the program's ordering; `own` and `peer` add the two orders as
  hypotheses. Without them step counters still differ by at most one and an unpacked cell is at most one
  step ahead (`CountersWithinOne`, `AsyncSafety`). `AllRunsRefineIff` says, field by field, what is needed:
  the own order always, the order between peers unless the values that travel between ranks have settled.
  No order blocks a run (`NeverStuck`).
- One point on an axis makes the de-duplicated facet ranges overlap or wrap, except behind an axis of
  exactly two points; `PartitionIffExact` gives the exact sizes.
- The documentation printer lets `;` in argument help (line 88 re-checks the key), line ends and trailing
  carriage returns through; `RoundTripIff` says exactly which benchmarks survive. `assignAndValidate` also
  accepts a second, different text after an empty one (`DifferentAfterEmpty`); `AcceptedLinesAreCollected`
  says exactly which lines are accepted.
- Byte counts that are non-zero multiples of 1024^4 run past the unit table; repeated division reaches its
  expected value only from 31 (63) operations on; equal truncated timestamps mean one full period.

## Model

| member | source | states |
|---|---|---|
| `HeatGeometry.RankRoundTrip` | source/workloads/heat3d_workload_l0/heat3d_workload_l0.cpp:567-582 | every rank's computed sub-domain coordinates lie in the grid and lead back to the rank: the program's start-up expectation, for all grids and ranks |
| `HeatGeometry.CoordRoundTrip` | source/workloads/heat3d_workload_l0/heat3d_workload_l0.cpp:241-245 | the converse: every coordinate triple is the one computed by its rank, so rank and coordinates are in bijection |
| `HeatGeometry.RanksFollowColumns` | source/workloads/heat3d_workload_l0/heat3d_workload_l0.cpp:241-245 | ranks are numbered like the points of a block, z first |
| `LinearIndex.LinCounts` | source/workloads/heat3d_workload_l0/heat3d_workload_l0.cpp:20-31 | points, and sub-domains among ranks, are numbered column by column: z first, then the next column in y, then the next plane in x, each one more than the one before |
| `HeatGeometry.ReverseFlipsLowBit` | source/workloads/heat3d_workload_l0/heat3d_workload_l0.cpp:365-367 | the opposite facet is the one whose enumerator differs in bit 0 |
| `HeatGeometry.ReverseIsInvolution` | source/workloads/heat3d_workload_l0/heat3d_workload_l0.cpp:365-367 | reversing twice is the identity and never the facet itself |
| `HeatGeometry.NeighbourFormulaExact` | source/workloads/heat3d_workload_l0/heat3d_workload_l0.cpp:247-260 | the uint32 expressions for the periodic successor and predecessor are right for every coordinate if and only if the axis has at most 2^31 sub-domains |
| `HeatGeometry.NeighbourSymmetry` | source/workloads/heat3d_workload_l0/heat3d_workload_l0.cpp:247-275 | leaving through a facet and returning through the opposite one is the identity, also when the neighbour is the rank itself |
| `HeatGeometry.UniqueSender` | source/workloads/heat3d_workload_l0/heat3d_workload_l0.cpp:787-794 | each receive buffer has exactly one writer: the opposite facet of the neighbour (if and only if) |
| `HeatGeometry.MatchingLengths` | source/workloads/heat3d_workload_l0/heat3d_workload_l0.cpp:892-900 | the copied length is the length of the neighbour's receive buffer |
| `HeatGeometry.FacetBoxes` | source/workloads/heat3d_workload_l0/heat3d_workload_l0.cpp:369-545 | the outer and inner index ranges cover exactly the ghost facet and the shell facet |
| `HeatGeometry.FacetSizes` | source/workloads/heat3d_workload_l0/heat3d_workload_l0.cpp:369-545 | the buffer length equals the number of work-items of the pack and of the unpack |
| `HeatGeometry.PartitionIffExact` | source/workloads/heat3d_workload_l0/heat3d_workload_l0.cpp:369-545 | the six de-duplicated facets and the interior write every inner point exactly once and nothing else if and only if the size satisfies Exact(), with the uint32 wrap of the range 2..0 modelled |
| `HeatRefinement.SetupsCovered` | source/workloads/heat3d_workload_l0/heat3d_workload_l0.cpp:563-591 | exactly which grids and sub-domain sizes the solver's theorems cover |
| `HeatGeometry.PartitionCell` | source/workloads/heat3d_workload_l0/heat3d_workload_l0.cpp:1044-1048 | the same for one cell: written once if inner, never otherwise |
| `HeatGeometry.AllAtLeastTwoIsExact` | source/workloads/heat3d_workload_l0/heat3d_workload_l0.cpp:377-543 | sizes of at least two points per axis are among the exact ones |
| `HeatKernels.UpdateKernelAt` | source/workloads/heat3d_workload_l0/kernels/heat3d_workload.cl:78-117 | an update dispatch leaves the stencil of the old buffer in the cells of its box and every other cell unchanged |
| `HeatKernels.AsWrittenReadsEarlier` | source/workloads/heat3d_workload_l0/kernels/heat3d_workload.cl:58-58 | the pack kernel's index expression lies strictly before the intended element for every inner point and every size, and stays in the buffer |
| `HeatKernels.PacksItsFacetsIffDocumented` | source/workloads/heat3d_workload_l0/heat3d_workload_l0.cpp:27-37 | the pack kernel addresses the points it is dispatched on if and only if it follows the storage order the program documents |
| `HeatKernels.PackKernelAt` | source/workloads/heat3d_workload_l0/kernels/heat3d_workload.cl:44-59 | the send buffer position of a point holds the element the pack index names, for both index expressions |
| `HeatKernels.UnpackKernelAt` | source/workloads/heat3d_workload_l0/kernels/heat3d_workload.cl:61-76 | an unpack dispatch fills exactly its box, each cell from the buffer position of that cell |
| `HeatKernels.LaunchUpdate` | source/workloads/heat3d_workload_l0/kernels/heat3d_workload.cl:78-117 | an update over arrays, work-items in any order, computes UpdateKernel of the old contents |
| `HeatKernels.LaunchPack` | source/workloads/heat3d_workload_l0/heat3d_workload_l0.cpp:832-882 | a pack over arrays computes PackKernel |
| `HeatKernels.LaunchUnpack` | source/workloads/heat3d_workload_l0/heat3d_workload_l0.cpp:910-963 | an unpack over arrays computes UnpackKernel of the old contents |
| `HeatStep.UpdatesWithinInner` | source/workloads/heat3d_workload_l0/heat3d_workload_l0.cpp:973-1018 | no update dispatch leaves the inner points |
| `HeatStep.CopiesWithinBounds` | source/workloads/heat3d_workload_l0/heat3d_workload_l0.cpp:832-963 | packs read inner points only, unpacks stay in the padded sub-domain, and both have the buffer's length |
| `HeatStep.PackedAfterUpdate` | source/workloads/heat3d_workload_l0/heat3d_workload_l0.cpp:1138-1143 | when a facet is packed every point of its full (overlapping) shell has already been updated in this timestep |
| `HeatStep.EveryInnerPointWritten` | source/workloads/heat3d_workload_l0/heat3d_workload_l0.cpp:1138-1151 | the facet updates and the interior update together write exactly the inner points |
| `HeatStep.ComputedAt` | source/workloads/heat3d_workload_l0/heat3d_workload_l0.cpp:1137-1153 | at the host synchronisation every inner point holds the stencil of the previous contents, all else is untouched |
| `HeatStep.SendBufferAt` | source/workloads/heat3d_workload_l0/heat3d_workload_l0.cpp:1138-1149 | with the documented packing a send buffer carries this timestep's values of its shell |
| `HeatStep.UnpackedAt` | source/workloads/heat3d_workload_l0/heat3d_workload_l0.cpp:965-971 | each ghost facet is filled from its own receive buffer and nothing else changes |
| `HeatRank.Worker.FindNeighbours` | source/workloads/heat3d_workload_l0/heat3d_workload_l0.cpp:247-275 | the six entries a rank computes are the topology's Neighbour relation |
| `HeatRank.Worker.Compute` | source/workloads/heat3d_workload_l0/heat3d_workload_l0.cpp:1137-1153 | the facet loop and the interior update on arrays leave Computed in the new sub-domain and SendBuffer in the six send buffers |
| `HeatRank.Worker.Finish` | source/workloads/heat3d_workload_l0/heat3d_workload_l0.cpp:1157-1159 | unpacking and the pointer swap leave Unpacked as the old sub-domain and the previous old one as the new |
| `HeatRefinement.SameBufferPosition` | source/workloads/heat3d_workload_l0/heat3d_workload_l0.cpp:27-37 | a ghost point and the shell point it mirrors have the same position in the buffer on both sides |
| `HeatRefinement.MirrorIsSamePoint` | source/workloads/heat3d_workload_l0/heat3d_workload_l0.cpp:369-545 | a ghost point and the neighbour's shell point are one point of the periodic mesh, also with a single sub-domain on an axis |
| `HeatRefinement.StencilReadsUsed` | source/workloads/heat3d_workload_l0/kernels/heat3d_workload.cl:78-117 | stencil reads land on inner points and the six ghost facets, never on an edge or a corner |
| `HeatRefinement.SyncInitFaithful` | source/workloads/heat3d_workload_l0/heat3d_workload_l0.cpp:1112-1131 | after the initial exchange every cell a stencil may read holds its point's initial value |
| `HeatRefinement.SyncStepFaithful` | source/workloads/heat3d_workload_l0/heat3d_workload_l0.cpp:1137-1159 | one bulk-synchronous timestep of all ranks is one application of the global periodic stencil, ghosts included |
| `HeatRefinement.SyncRefinesGlobal` | source/workloads/heat3d_workload_l0/heat3d_workload_l0.cpp:1112-1160 | for every grid, exact size, stencil, initial field and number of timesteps the glued ranks equal the global periodic computation (documented packing) |
| `HeatRefinement.AsWrittenFails` | source/workloads/heat3d_workload_l0/kernels/heat3d_workload.cl:44-59 | with the pack index as written one timestep of the kernels' own stencil is already wrong, for every grid, size, initial field and non-zero weight: it reads device memory that initialisation never wrote |
| `HeatRefinement.RefinesIffPacksItsFacets` | source/workloads/heat3d_workload_l0/kernels/heat3d_workload.cl:44-59 | exact condition for each initial field: all bulk-synchronous runs of the kernels' stencil from it refine the global one if and only if the pack kernel addresses its own points, that is follows the documented order |
| `HeatConservation.HeatIsConserved` | source/workloads/heat3d_workload_l0/kernels/heat3d_workload.cl:90-97 | with the kernels' stencil the total heat of the periodic mesh is the initial total after any number of steps |
| `WorkItems.RunIsParallel` | source/workloads/heat3d_workload_l0/heat3d_workload_l0.cpp:1138-1153 | race-free work-items compute in every order what each computes alone from the memory they started with |
| `HeatRaces.UpdateMissesEarlierShell` | source/workloads/heat3d_workload_l0/heat3d_workload_l0.cpp:1138-1143 | the update of a facet, which overlaps the pack of the previous one in time, writes no point that pack reads |
| `HeatRaces.SegmentRaceFree` | source/workloads/heat3d_workload_l0/heat3d_workload_l0.cpp:1138-1153 | two different work-items between the same two command-list barriers never write what the other reads or writes (documented packing) |
| `HeatRaces.DocumentedHasNoRaces` | source/workloads/heat3d_workload_l0/heat3d_workload_l0.cpp:1138-1153 | with the documented packing no size has a race |
| `HeatPackRaces.RaceFreeIff` | source/workloads/heat3d_workload_l0/kernels/heat3d_workload.cl:44-59 | exact condition, size by size: a timestep is race free if and only if the packing is documented or none of four arithmetic conditions on the three sizes holds |
| `HeatPackRaces.XUIff` | source/workloads/heat3d_workload_l0/kernels/heat3d_workload.cl:58-58 | the pack of XU reads what the update of XD writes if and only if some multiple q of nPointsZ+2, 2 <= q <= 2*nPointsY, is within nPointsZ-1 of nPointsX*(nPointsY+2) |
| `HeatPackRaces.YUIff` | source/workloads/heat3d_workload_l0/kernels/heat3d_workload.cl:58-58 | the same for the pack of YU and the update of YD |
| `HeatPackRaces.YDIff` | source/workloads/heat3d_workload_l0/kernels/heat3d_workload.cl:58-58 | the same for the pack of YD and the update of ZU |
| `HeatPackRaces.ZUIff` | source/workloads/heat3d_workload_l0/kernels/heat3d_workload.cl:58-58 | the same for the pack of ZU and the update of ZD |
| `HeatPackRaces.XDNever` | source/workloads/heat3d_workload_l0/kernels/heat3d_workload.cl:58-58 | the pack of XD never reads what the update of YU writes |
| `HeatPackRaces.ThickXU` | source/workloads/heat3d_workload_l0/kernels/heat3d_workload.cl:58-58 | with three or more points along Z the first condition is one interval |
| `HeatPackRaces.NearCubesRace` | source/workloads/heat3d_workload_l0/kernels/heat3d_workload.cl:58-58 | every sub-domain whose axes are within a factor of two races as written, hence every configuration with one or two sub-domains per axis of a cubic mesh |
| `HeatPackRaces.SquaresRace` | source/workloads/heat3d_workload_l0/kernels/heat3d_workload.cl:58-58 | so does every one with nPointsY = nPointsZ and nPointsX <= 2*nPointsY, cubes included |
| `HeatPackRaces.SomeSizeIsRaceFree` | source/workloads/heat3d_workload_l0/kernels/heat3d_workload.cl:58-58 | 2*2*4 points do not race |
| `HeatRaces.TimestepAnyOrder` | source/workloads/heat3d_workload_l0/heat3d_workload_l0.cpp:1138-1153 | every order of the work-items that respects the barriers reaches the same buffers at every barrier |
| `HeatRaces.HostSyncState` | source/workloads/heat3d_workload_l0/heat3d_workload_l0.cpp:1147-1153 | at the host synchronisation memory holds Computed and the neighbours' receive buffers hold SendBuffer, whatever the order |
| `HeatAsync.StepKeepsInv` | source/benchmarks/algorithm_benchmark/implementations/l0/heat3d_l0.cpp:30-47 | every transition of a rank or of the master keeps the event-barrier, send-count and scheduling invariants |
| `HeatAsync.BarrierBounds` | source/workloads/heat3d_workload_l0/heat3d_workload_l0.cpp:209-220 | a rank between two barriers is at most one step from any other, and a rank behind it is still inside the barrier |
| `HeatAsync.CountersWithinOne` | source/workloads/heat3d_workload_l0/heat3d_workload_l0.cpp:1137-1160 | in every state of every interleaving the step counters of any two ranks differ by at most one |
| `HeatAsync.AsyncSafety` | source/workloads/heat3d_workload_l0/heat3d_workload_l0.cpp:1147-1159 | in every interleaving a cell about to be unpacked in step t holds data sent for t or t+1; for t exactly if peers are ordered or the rank is its own neighbour |
| `HeatAsync.UnpackIsRight` | source/workloads/heat3d_workload_l0/heat3d_workload_l0.cpp:1155-1157 | with the orders a run needs every cell is unpacked with the bulk-synchronous value of its step |
| `HeatAsync.StepKeepsData` | source/workloads/heat3d_workload_l0/heat3d_workload_l0.cpp:1137-1160 | with those orders every transition keeps every rank on the contents of the bulk-synchronous run of its own step |
| `HeatAsync.ConcurrentRefinesGlobal` | source/workloads/heat3d_workload_l0/heat3d_workload_l0.cpp:1137-1160 | in every interleaving of ranks, master and halo cells that keeps a rank's own order, and the order between peers unless what they send has settled, a rank in step t holds t global stencil steps on its inner points |
| `HeatAsync.NeverStuck` | source/workloads/heat3d_workload_l0/heat3d_workload_l0.cpp:1137-1160 | no reachable state is stuck, whichever orders are kept |
| `HeatSchedules.FreshIff` | source/workloads/heat3d_workload_l0/heat3d_workload_l0.cpp:1147-1159 | exact condition: all runs unpack only fresh data if and only if peers are ordered or there is one rank; otherwise a run that unpacks step t+1 data is constructed |
| `HeatSchedules.UnorderedFails` | source/workloads/heat3d_workload_l0/heat3d_workload_l0.cpp:1157-1159 | without a rank's own order some run computes a facet from ghosts not yet unpacked and ends with wrong inner points, for every grid, size, initial field and non-zero weight |
| `HeatSchedules.OvertakenFails` | source/workloads/heat3d_workload_l0/heat3d_workload_l0.cpp:1147-1157 | without the order between peers some run is wrong for every field whose travelling values still change |
| `HeatSchedules.AsWrittenFailsConcurrently` | source/workloads/heat3d_workload_l0/kernels/heat3d_workload.cl:44-59 | the packing as written is wrong from every field whatever the order |
| `HeatSchedules.AllRunsRefineIff` | source/workloads/heat3d_workload_l0/heat3d_workload_l0.cpp:1112-1160 | exact condition for each initial field: all concurrent runs of the kernels' stencil refine the global computation if and only if a rank unpacks before it updates, the packing is documented, and peers are ordered or nothing that travels between different ranks changes after step 1 |
| `HeatSchedules.EveryFieldRefinesIff` | source/workloads/heat3d_workload_l0/heat3d_workload_l0.cpp:594-600 | exact condition for all fields at once with the program's weight 1/8.1: own order, documented packing, and peer order or a single rank |
| `Barrier.StepKeepsInv` | source/framework/workload/workload_synchronization.cpp:19-43 | every transition of parent or worker keeps the counts of characters written, in flight and read in balance |
| `Barrier.BarrierSafety` | source/framework/utility/process_group.cpp:41-51 | in every interleaving no worker has returned from more synchronisations than any worker has entered, each pipe holds at most one character and nobody fails |
| `Barrier.RunLog` | source/framework/utility/process_group.cpp:41-51 | at every moment the parent's operations are a prefix of: wait for all, signal all, iteration after iteration |
| `Barrier.RunLength` | source/framework/utility/process_group.cpp:41-51 | every transition uses up some of a fixed number of operations, so no run is longer |
| `Barrier.CanMove` | source/framework/workload/workload.h:80-97 | if no implementation reports success too early no unfinished state is stuck, whatever the failing ones did before their drain loop |
| `Barrier.RunCompletes` | source/framework/workload/workload.h:80-97 | then every run extends to one in which the parent has finished and every worker has performed all synchronisations and is gone |
| `Barrier.ParentFinishesIff` | source/framework/workload/workload.h:80-97 | exact condition: the parent can leave its loop if and only if no implementation reports success after too few synchronisations; failing workers drain and never block it |
| `Barrier.WorkerLog` | source/framework/workload/workload_synchronization.cpp:53-58 | in every state of every run a worker has written and read a prefix of its alternating operations, all of them once gone, and dies exactly if it asks for too many |
| `Barrier.Strangers` | source/framework/workload/workload_synchronization.cpp:34-42 | a waiting worker skips line ends and dies of any other stranger, the parent of any stranger; nothing moves after that |
| `WorkloadSync.WorkloadSynchronization.Synchronize` | source/framework/workload/workload_synchronization.cpp:19-43 | one call: the too-many-iterations check, the count, write before read, skipped line ends, the fatal stranger |
| `WorkloadSync.CallReads` | source/framework/workload/workload_synchronization.cpp:19-43 | a call writes one $, skips any line ends, and ends well or fatally by the first other character |
| `WorkloadSync.CallOnClosedPipe` | source/framework/workload/workload_synchronization.cpp:34-37 | a pipe that closes before that is fatal |
| `WorkloadSync.CallsWithoutPipe` | source/framework/workload/workload_synchronization.cpp:19-27 | one call too many is fatal before anything is written; with synchronisation off a call only counts |
| `WorkloadSync.RepeatStopsAtStranger` | source/framework/workload/workload_synchronization.cpp:39-42 | a run of calls stops at the first character that does not belong there |
| `WorkloadSync.WorkloadSynchronization.Validate` | source/framework/workload/workload_synchronization.cpp:45-51 | valid exactly when the count is the expected one or synchronisation is off |
| `WorkloadSync.WorkloadSynchronization.ExecuteRemainingSynchronizations` | source/framework/workload/workload_synchronization.cpp:53-58 | the drain loop equals the missing number of calls in a row, up to the first fatal error |
| `WorkloadSync.RunWorkload` | source/framework/workload/workload.h:80-97 | a whole worker on its pipes: the implementation's calls, then the warning or the drain |
| `WorkloadSync.WorkloadAnswered` | source/framework/workload/workload.h:80-97 | against an answering parent a failing implementation is drained to exactly the expected total whatever it did before, a succeeding one keeps its own count, only one that asks for too many dies |
| `WorkloadSync.WrittenThenRead` | source/framework/workload/workload_synchronization.cpp:29-37 | the characters written and read are $, each written before one is read |
| `WorkloadSync.WorkloadDisabled` | source/framework/workload/workload.h:80-97 | with synchronisation off a worker writes and reads nothing whatever it does, and dies exactly if it asks for too many synchronisations |
| `WorkloadSync.RunsFollowTheProgram` | source/framework/workload/workload.h:80-97 | each worker's operations in any interleaving are a prefix of what RunWorkload does, and once it is gone all of them with the same outcome |
| `WorkloadSync.ProcessGroup.SynchronizeAll` | source/framework/utility/process_group.cpp:41-51 | succeeds if and only if every process delivers the expected characters; then each is answered once per iteration in the order of RunLog |
| `Decimal.AtolOfPrint` | source/framework/utility/process.cpp:58-61 | a printed integer followed by any non-digit is read back if and only if it is an int64 |
| `Decimal.NumberInText` | source/framework/utility/process.cpp:58-61 | white space, an optional sign and leading zeros before a printed number are read with it |
| `Decimal.NoNumberInText` | source/framework/utility/process.cpp:58-61 | a text without a digit in that place is zero |
| `Decimal.PrintedDigits` | source/framework/workload/workload_statistics.cpp:50-52 | printing is decimal, most significant digit first, with a minus sign |
| `Measurements.WorkloadStatistics.PushValue` | source/framework/workload/workload_statistics.cpp:34-53 | accepts exactly plain, undescribed values below the maximum count and appends them to the report |
| `Measurements.WorkloadStatistics.IsFull` | source/framework/workload/workload_statistics.cpp:101-103 | full exactly when the maximum number of values was pushed |
| `Measurements.SplitString` | source/framework/utility/string_utils.h:60-70 | the loop yields the white-space separated words |
| `Measurements.WordsSeparated` | source/framework/utility/string_utils.h:60-70 | words are separated by any number of any of the six white-space characters |
| `Measurements.GetMeasurements` | source/framework/utility/process.cpp:51-64 | the words as uint64 values, or the fatal error when their number differs |
| `Measurements.ReportRoundTrip` | source/framework/utility/process.cpp:51-64 | printing, splitting and parsing returns exactly the pushed int64 durations (negative ones modulo 2^64), or rejects a wrong count |
| `Measurements.PushMeasurementsToStatistics` | source/framework/utility/process_group.cpp:69-102 | the nested loops push all individual values in order, then the quotient of the uint64 sums, one report with a wrong count being fatal |
| `Measurements.AveragesOfReports` | source/framework/utility/process_group.cpp:69-102 | over P >= 1 workers the i-th pushed average is the floor of the exact mean of their i-th durations, absent overflow |
| `Measurements.PushesByIndex` | source/framework/utility/process_group.cpp:69-102 | for both flags and P >= 1 workers: push p*n+i is process p's i-th duration, the i-th push after those is the floor of the exact mean, and there are no others |
| `Measurements.PushingFailsIff` | source/framework/utility/process_group.cpp:75-77 | pushing fails exactly if some report has a wrong number of words or an average has no process |
| `Measurements.NoProcesses` | source/framework/utility/process_group.cpp:95-101 | without processes nothing is pushed, and an average divides by zero |
| `DocsText.CutLeadingSpaces` | source/framework/utility/string_utils.h:91-101 | counts the leading spaces and cuts exactly them |
| `DocsText.SplitToTwoTokens` | source/docs_generator/helpers.h:26-41 | splits at the only ';' and strips trailing carriage returns, with both errors |
| `DocsText.SplitOfTokens` | source/docs_generator/helpers.h:26-41 | splitting name;help gives name and help back when both are clean |
| `DocsText.SplitCutsReturns` | source/docs_generator/helpers.h:37-40 | all trailing carriage returns of the second token are cut and nothing else |
| `DocsText.SplitIffOneDelimiter` | source/docs_generator/helpers.h:30-35 | a line is split exactly if it has one delimiter |
| `DocsPrinter.GenerateDocs` | source/framework/benchmark_main.cpp:38-99 | the printing loops with their early returns equal PrintDocs, including what is printed before an error |
| `DocsPrinter.AcceptedIffLegal` | source/framework/benchmark_main.cpp:38-93 | exact condition, character by character: which benchmarks are printed without an error |
| `DocsPrinter.IdentifiersAreAccepted` | source/framework/benchmark_main.cpp:39-46 | names of letters, digits and underscores with delimiter-free texts are accepted |
| `DocsPrinter.HeaderText` | source/framework/benchmark_main.cpp:41-53 | the header line comes first, and a bad header prints nothing |
| `DocsPrinter.CasesText` | source/framework/benchmark_main.cpp:55-75 | test cases are printed in order, one line each followed by their arguments, unimplemented ones not at all, up to the first error |
| `DocsPrinter.ArgumentsText` | source/framework/benchmark_main.cpp:77-95 | arguments are printed in order, one line each, up to the first error |
| `DocsParser.ParseOutput` | source/docs_generator/main.cpp:80-126 | the parsing loop with its cursor equals Parse, with the same errors |
| `DocsParser.LineMeans` | source/docs_generator/main.cpp:96-125 | what a line does by its indentation: test case, argument of the current one, or fatal |
| `DocsParser.LinesHaveOneDelimiter` | source/docs_generator/main.cpp:99-114 | a line without exactly one delimiter is fatal |
| `DocsParser.BodyByLines` | source/docs_generator/main.cpp:96-96 | lines are read one after the other, the last needs no line end |
| `DocsParser.HeaderMeans` | source/docs_generator/main.cpp:80-92 | the first line: no indentation, and no other name or description than before |
| `DocsParser.AddCaseMeans` | source/docs_generator/main.cpp:98-110 | what a test case line does to the entry, with its two errors in order |
| `DocsParser.AddArgumentMeans` | source/docs_generator/main.cpp:111-122 | what an argument line does to the entry, with its error |
| `DocsRoundTrip.ParsePrinted` | source/docs_generator/main.cpp:80-126 | parsing a printed benchmark into any partly filled entry is merging the benchmark itself, errors included |
| `DocsRoundTrip.ParseYieldsClean` | source/docs_generator/main.cpp:80-126 | the parser never yields a name with a line end or ';' nor a help text ending in a carriage return |
| `DocsRoundTrip.RoundTripIff` | source/framework/benchmark_main.cpp:38-99 | exact condition: for an accepted benchmark with distinct names the printed text parses back to exactly that benchmark if and only if all printed texts are clean |
| `DocsMerge.ReadInstances` | source/docs_generator/main.cpp:59-128 | the loop over instances equals ParseAll, a failing instance being fatal |
| `DocsMerge.AcceptedLinesAreCollected` | source/docs_generator/main.cpp:94-126 | exact condition: lines read into an empty entry are accepted if and only if no API lists a case twice, a text follows only an empty or equal one, and arguments follow their case; then the entry says exactly what they say |
| `DocsMerge.DifferentAfterEmpty` | source/docs_generator/helpers.h:16-24 | a different text after an empty one is accepted and replaces it |
| `DocsMerge.MergedExactly` | source/docs_generator/main.cpp:59-128 | merging clean outputs of one benchmark succeeds if and only if their lines are acceptable, and then each test case has exactly the APIs that listed it and the union of its arguments with their help texts |
| `DocsMerge.AgreeingInstancesMerge` | source/docs_generator/main.cpp:59-128 | instances whose texts agree are merged |
| `DocsMerge.AgreeingWithItself` | source/docs_generator/main.cpp:59-128 | one instance agrees with itself exactly if its names are distinct |
| `DocsMerge.TwoApisAgree` | source/docs_generator/main.cpp:105-106 | two binaries of one benchmark agree if their APIs differ |
| `BlitSizeAssigner.Assigner.GetSpaceForBlit` | source/benchmarks/memory_benchmark/blit_size_assigner.h:32-50 | the piece at the current offset with the engine's share, or the error for an engine that was not added |
| `BlitSizeAssigner.Assigner.AssignAll` | source/benchmarks/memory_benchmark/blit_size_assigner.h:45-50 | one request per engine in any order never fails and yields Spaces and Total |
| `BlitSizeAssigner.Assigner.AssignAllAndValidate` | source/benchmarks/memory_benchmark/blit_size_assigner.h:45-62 | after one request per engine in any order the divisibility warning is given if and only if the size is no multiple of the chunk count, the bounds warning never |
| `BlitSizeAssigner.BlitAllocation` | source/benchmarks/memory_benchmark/blit_size_assigner.h:22-50 | for every order of requests the pieces are contiguous from 0, none overlaps a later one, all lie in the buffer and the last ends at the size minus its remainder |
| `BlitSizeAssigner.BlitTotal` | source/benchmarks/memory_benchmark/blit_size_assigner.h:22-62 | the total is the size minus its remainder by the chunk count, so never out of bounds and short exactly when there is a remainder; the main share is the sum of the link shares |
| `MathOperations.ExpectedIffNeeded` | source/framework/utility/math_operation_helper.h:44-142 | n applications give the generated expected value if and only if n reaches the operation's threshold: 0, 1, or 31 / 63 for division |
| `MathOperations.GeneratedValues` | source/framework/utility/math_operation_helper.h:61-138 | initial value, argument and expected value of every operation in plain numbers |
| `MathOperations.ExecuteMeans` | source/benchmarks/atomic_benchmark/kernel_helper.cpp:68-100 | what each operation does to any cell of its width: modular sums, minimum and maximum, exchange, a compare-exchange that changes nothing, bitwise operations bit by bit, Euclidean quotient and remainder |
| `MathOperations.InterleavingLength` | source/benchmarks/atomic_benchmark/kernel_helper.cpp:15-25 | an interleaving of the threads' operations has threads * each entries |
| `MathOperations.CountWraps` | source/framework/utility/math_operation_helper.h:48-49 | a wrapped size_t operation count generates the same test data |
| `MathOperations.ExpectedEqualsExecution` | source/benchmarks/atomic_benchmark/kernel_helper.cpp:68-100 | every interleaving of all threads' operations ends with the expected value if and only if the total count reaches the threshold, for both widths |
| `Bits.MaskIsRemainder` | source/framework/utility/bit_operations_helper.h:13-21 | masking with n ones is the remainder modulo 2^n |
| `Bits.BitOfOperations` | source/framework/utility/math_operation_helper.h:117-133 | bit k of the conjunction, disjunction and exclusive disjunction is that of the operands' bits k |
| `Bits.BitSums` | source/framework/utility/math_operation_helper.h:117-133 | and + or = sum of the operands, xor + twice and = sum of the operands |
| `Timestamps.IsolateIsRemainder` | source/framework/utility/bit_operations_helper.h:13-21 | isolating any number of bits of a uint64 is the remainder modulo that power of two |
| `Timestamps.TicksExact` | source/framework/l0/levelzero.h:156-165 | the branch on truncated timestamps recovers the ticks if and only if between 1 and a full period passed |
| `Timestamps.SubmissionTimeExact` | source/framework/l0/levelzero.h:142-168 | exact condition: truncating both timestamps and calling the function gives (t1 - t0) * resolution if and only if 1 <= t1 - t0 <= 2^bits |
| `Timestamps.SubmissionTimeWraps` | source/framework/l0/levelzero.h:149-168 | in general the submission time is ticks times resolution modulo 2^64 |
| `RandomCache.Cache.FillWithRandomBytes` | source/framework/utility/buffer_contents_helper.cpp:35-60 | the cache only grows and stays a whole number of little-endian words of the generator's output in order; the buffer becomes its prefix while the rest of the buffer is kept |
| `RandomCache.StreamHoldsWords` | source/framework/utility/buffer_contents_helper.cpp:51-55 | every eight bytes of the cache are the little-endian word of their position |
| `RandomCache.Cache.FillAll` | source/framework/utility/buffer_contents_helper.cpp:35-60 | a sequence of fills on a fresh cache leaves Filled(k) in buffer k, a prefix of the final cache, and draws exactly DrawnAfter words |
| `RandomCache.FillsArePrefixes` | source/framework/utility/buffer_contents_helper.cpp:35-60 | what FillAll leaves in a buffer has the requested length and is a prefix of the final cache |
| `RandomCache.FillsAgree` | source/framework/utility/buffer_contents_helper.cpp:58-60 | two fills of FillAll agree on their common length |
| `RandomCache.DrawsOnlyTheLargest` | source/framework/utility/buffer_contents_helper.cpp:43-56 | FillAll draws exactly ceil(largest / 8) words |
| `ByteSize.UnitIsLargest` | source/framework/argument/basic_argument.h:138-148 | the chosen unit times the printed number is the value, and no larger unit divides it |
| `ByteSize.ToStringValue` | source/framework/argument/basic_argument.h:133-151 | the unit loop yields the text, or runs past the unit table |
| `ByteSize.TextOfUnits` | source/framework/argument/basic_argument.h:133-151 | a whole number of units that is no multiple of 1024 is printed with that unit |
| `ByteSize.ParseValue` | source/framework/argument/basic_argument.h:153-185 | the unit search by last occurrence equals the longest-first suffix test, the unknown-unit branch is dead |
| `ByteSize.BytesOfUnits` | source/framework/argument/basic_argument.h:153-185 | a number with kb, mb, gb, b or nothing after it, in either case, is that many bytes modulo 2^64 |
| `ByteSize.ByteSizeRoundTrip` | source/framework/argument/basic_argument.h:133-185 | exact condition: an int64 value has a text if and only if it is 0 or no multiple of 1024^4, and then parsing the text gives it back |
| `Hex.ToHex` | source/framework/utility/hex_helper.h:19-31 | the text is 0x followed by two digits per byte |
| `Hex.TextDigits` | source/framework/utility/hex_helper.h:22-29 | the two digits of each byte, upper case, more significant first |
| `Hex.FromHex` | source/framework/utility/hex_helper.h:33-57 | the loop equals Decode, with the malformed prefix, odd length and non-numeric cases |
| `Hex.PairMeans` | source/framework/utility/hex_helper.h:51-53 | what two characters are read as: two digits in either case, one digit before anything else or after white space or a sign, otherwise an exception |
| `Hex.DecodeMeans` | source/framework/utility/hex_helper.h:33-57 | nothing without the prefix or for odd length, an exception exactly if a pair is no number, else one byte per pair |
| `Hex.HexRoundTrip` | source/framework/utility/hex_helper.h:19-57 | decoding the printed text returns the bytes, the empty sequence included |

## Left out

- Level Zero, OpenCL, SYCL and MPI calls, kernel and module creation, IPC handles, sockets: they appear only as launches, copies, barriers and host synchronisations that do what their names say.
- Floating-point rounding: cells are reals; refinement is proved for an arbitrary stencil function, so it does not depend on the arithmetic, while conservation and the negative results use the kernels' stencil with exact arithmetic.
- The initial temperature distribution (`init_temperature`): the initial field is arbitrary.
- Allocation failures and non-zero return codes of the device API.
- The whole system of ranks is modelled on values (sequences and maps); only one rank's buffers are heap arrays (`HeatRank`), so aliasing between processes' mappings of one receive buffer is represented by `UniqueSender` and not by shared objects.
- HeatAsync.ConcurrentRefinesGlobal: the machine starts when the exchange before the first timestep is complete, because host synchronisation, the event barrier and the parent's synchronisation separate it from the timestep loop; that exchange is modelled bulk-synchronously in `HeatRefinement.SyncInitFaithful`.
- HeatAsync.NeverStuck: the machine does not bound the number of timesteps, so the end of the loop, the outer loop over iterations and the unpacking that may still run when the next iteration initialises its buffers are not modelled.
- HeatAsync.StepKeepsInv: within a timestep of the concurrent machine the facet updates and packs of one rank after its first command-list barrier are one transition, and so are the update of the first facet and of the interior; that their work-items may run in any order is `HeatRaces`.
- HeatRaces.TimestepAnyOrder: stated for the documented packing only, since with the index as written most sizes have races.
- WorkloadSync.WorkloadSynchronization.Synchronize: the reading of one character is that of a stream; on Linux a pipe's own read already rejects line ends.
- Barrier.BarrierSafety: pipes are unbounded FIFO channels; a parent that waits for a worker that has exited waits for ever, where the program's read of the closed pipe is a fatal error.
- WorkloadSync.RunWorkload: an implementation is reduced to how often it synchronises and whether it reports success; its measurements are in `Measurements`.
- Decimal.AtolOfPrint: for text beyond the int64 range, where the C standard leaves atol undefined, the model saturates.
- Measurements.AveragesOfReports: process names and the units of pushed values are not modelled; sums are modulo 2^64 and the theorem assumes no overflow.
- Measurements.WorkloadStatistics.PushValue: the overloads for percentages, sizes and energy are not modelled.
- DocsMerge.MergedExactly: the instances have one name and one description; how they are found on disk and grouped, and the Markdown output, are not modelled.
- MathOperations.ExpectedEqualsExecution: the floating-point data types and the explicit-atomics macro variants are not modelled.
- BlitSizeAssigner.BlitTotal: size_t overflow of the chunk product is not modelled.
- RandomCache.Cache.FillWithRandomBytes: requires fewer than 2^32 missing words, because the loop counter is a uint32 and the program would not end otherwise; overflow of the aligned size is not modelled.
- Hex.ToHex: requires fewer than 2^32 bytes for the same reason.
- Timestamps.SubmissionTimeExact: 64 valid bits are excluded, since shifting by 64 is undefined.
- Benchmark definitions, enum helpers, configuration, timers, power meters, statistics printing and the small tools: tables, I/O and measurement that would only add easy members.
