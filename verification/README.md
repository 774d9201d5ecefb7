# Memory-system simulators: a verified model

The repository holds hand-written discrete-event simulators and four-phase handshake
models of memory systems.  This project restates their schedulers, queues and protocol
state machines in Dafny and proves what whole runs of them satisfy.

| files | what they model |
|---|---|
| `GpuModel`, `GpuInvariant`, `GpuTheorems`, `GpuArrivals`, `GpuReport`, `GpuRun` | project AT-7: lanes that issue under three limits into a FIFO in front of one memory, with stall bookkeeping and time integrals |
| `FabricModel`, `FabricInvariant`, `FabricTheorems`, `FabricArrivals`, `FabricReport`, `FabricRun` | project AT-6: a non-preemptive fabric scheduler with round-robin, priority and token-capped policies |
| `Arbitration`, `ArbitrationOrder` | projects AT-2 and AT-3: which pending initiator is granted next |
| `TargetModel`, `HandshakeModel`, `HandshakeInvariant`, `HandshakeTheorems`, `HandshakeMarks`, `HandshakeRun`, `HandshakeTop`, `HandshakeFairness` | projects AT-2 and AT-3: the four-phase handshake of any number of initiators, an interconnect and a target with finite slots, under every interleaving |
| `TimedTarget`, `TimedReport`, `DirectLink`, `DirectProgress`, `DirectReport` | the same target with its clock, and project AT-1's initiator connected directly to it |
| `MshrPool`, `MshrTheorems`, `MshrReport` | project AT-4: misses sharing a pool of MSHR entries |
| `TandemQueues`, `TandemBuffer`, `TandemSchedule`, `TandemReport` | project AT-5: two bounded queues in front of one server |
| `EndTimes`, `SimTime` | lists of future end times, and exact time |

For each simulator there is a value model (datatypes and functions), an invariant kept by
every operation, theorems about whole runs, and the imperative form: a class or a method
with the source's loops, proved equal to the value model.  The `Report` and `Arrivals` files
say, for every run, what each record or lane it leaves behind holds: exact times, depths,
waits and marks in terms of the input and of the other records.

Times are exact reals.  The tolerances of 1e-9 in AT-6 and AT-7 are zero.  Configurations
are symbolic: any number of lanes, records and transactions, any capacities and limits, any
traces.  Service times, hit flags, gaps and issue times are inputs, restricted only in
sign and order.

## What differs from what one might expect

- AT-4 is not first come, first served when ends coincide.  Granting at the earliest tracked
  end drops every end equal to it
  (`examples/at/project_at4_cache_mshr_pressure.cpp:359`), so after a tie a later miss can be
  granted while the pool is full.  `MshrTheorems.TieExample` is a run with three misses in
  service and a capacity of two.  Being the first-come-first-served schedule, granting in record
  order and never exceeding the capacity all hold exactly when, in the reference schedule
  computed from the input alone, no miss looks up before a grant on which two ends coincide
  (`MshrTheorems.FcfsIffTieFree`, `GrantsInOrderIffTieFree`, `CapacityIffTieFree`).  A larger
  pool never delays a miss of a run that meets the condition, and can delay one otherwise
  (`MshrTheorems.TiesCanMakeMoreCapacityDelay`); it delays none exactly when it delays none of
  those let in over the smaller pool's capacity (`MshrTheorems.NoneDelayedIffNoIntruder`).
- AT-5's downstream queue is a bounded buffer exactly when, in the reference schedule of the
  input, no record arrives before an end that an earlier record had already passed
  (`TandemBuffer.BoundedBufferIffNoneOvertakes`).  `TandemBuffer.OvertakingExample` is a run with
  three records in a queue of two.  Candidates in order suffice.  When every record enters, with
  or without overtaking, is a schedule of the input (`TandemSchedule.ScheduleIsRun`), and the
  queue stays within its capacity exactly when in that schedule no record's stay is intruded on
  by more records than it has places free (`TandemSchedule.OccupancyIffUncrowded`).
- AT-7's hop of 0.001 ns fires in the first iteration of every case with requests, positive
  limits and non-negative gaps whose base service time is zero, and never when it is positive (`GpuTheorems.FirstIterationHops`, `IterateProgresses`).
- AT-7 throws exactly when some request exists and one of the limits or the queue
  capacity is zero (`GpuTheorems.RunEnds`).
- Fixed priority in AT-2 bounds nobody else's wait (`Arbitration.FixedPriorityStarves`).
- The occupancy that an AT-4 lookup reports, which also sets the surcharge of a hit, is too small
  when a tie was dropped at a grant still ahead of the lookup, even in a run that is otherwise
  first come, first served; it is the real one exactly when no such tie was dropped
  (`MshrReport.OccupancyIffNoTieDropped`).

## Model

| member | source | states |
|---|---|---|
| GpuTheorems.RunEnds | examples/at/project_at7_gpu_like_throughput_saturation.cpp:438-508 | for every configuration in which every service takes time, with non-negative gaps, the loop ends; it throws exactly when a limit is zero and requests exist, and then with the no-progress error; otherwise every request was completed once |
| GpuTheorems.IterateProgresses | examples/at/project_at7_gpu_like_throughput_saturation.cpp:438-504 | one iteration from any reachable state neither throws nor hops by 0.001, keeps the invariant, and moves closer in the order of completions, issues and lanes not yet ready |
| GpuTheorems.FirstIterationHops | examples/at/project_at7_gpu_like_throughput_saturation.cpp:493-498 | the first iteration of a case with requests hops by 0.001 if and only if its base service time is zero |
| GpuTheorems.ZeroLimitThrows | examples/at/project_at7_gpu_like_throughput_saturation.cpp:493-496 | with a limit at zero the iteration throws the no-progress error |
| GpuTheorems.LittlesLaw | examples/at/project_at7_gpu_like_throughput_saturation.cpp:500-503 | every configuration without a zero limit completes all its requests, and at the end the outstanding area is the sum of all latencies and the queue area the sum of all queue delays |
| GpuTheorems.AverageOutstandingIsThroughputTimesLatency | examples/at/project_at7_gpu_like_throughput_saturation.cpp:554-579 | the reported average outstanding is throughput times average latency |
| GpuTheorems.UtilizationNeedsNoClamp | examples/at/project_at7_gpu_like_throughput_saturation.cpp:570-573 | the utilization ratio is at most one before the clamp |
| GpuTheorems.StallsTelescope | examples/at/project_at7_gpu_like_throughput_saturation.cpp:285-300 | a lane's last issue is its offset plus its gaps plus its reported stall, and no interval stays open; `GpuReport.StallsAreExact` says which gaps these are |
| GpuReport.StallsAreExact | examples/at/project_at7_gpu_like_throughput_saturation.cpp:393-421 | at the end of every run, with B the burst length but at least 1, a lane's k-th request was not issued before it was ready, which is `computeGap` after the issue before it if k is a positive multiple of B and `intraBurstGap` after it otherwise; stall events count the requests issued later than that; the lane's last issue, its m-th after the first, is 0.55 times its number plus m / B compute gaps, m - m / B intra-burst gaps and the reported stall |
| GpuArrivals.ArrivalsAreExact | examples/at/project_at7_gpu_like_throughput_saturation.cpp:396-414 | every request reports its number in its lane, one more than the earlier requests still in flight at its issue, and as queue depth a last stretch of the earlier requests that holds all that started service later and none that started it earlier |
| GpuArrivals.PeaksAreReached | examples/at/project_at7_gpu_like_throughput_saturation.cpp:411-414 | each reported peak is reached by some request and exceeded by none |
| GpuReport.ServiceIsExact | examples/at/project_at7_gpu_like_throughput_saturation.cpp:219-236 | every request takes the memory time, its transfer time and a jitter of 0.18 times its score mod 6, the score being 13 lane + 7 number modulo 2^32; while that does not wrap, the jitter cycles with lane + number |
| GpuReport.HiddenIsExact | examples/at/project_at7_gpu_like_throughput_saturation.cpp:302-322 | every request hides 20 % of its service, and with the filled part of the window up to 88 % of it and 35 % of its queue delay, less beyond 70 % of the queue, and exposes the rest of its latency |
| GpuReport.PassInLaneOrder | examples/at/project_at7_gpu_like_throughput_saturation.cpp:384-424 | one pass appends requests of lanes in strictly increasing order |
| GpuReport.LowerLaneFirst | examples/at/project_at7_gpu_like_throughput_saturation.cpp:384-390 | lanes that contend for the last places of a limit or of the queue get them in index order |
| GpuTheorems.FifoServer | examples/at/project_at7_gpu_like_throughput_saturation.cpp:365-378 | requests are served in issue order by one server that starts each when both are there |
| GpuTheorems.AnEventIsAhead | examples/at/project_at7_gpu_like_throughput_saturation.cpp:464-491 | while requests are unfinished and the memory is idle, some lane becomes ready later, so the next event time is finite |
| GpuTheorems.NextOverLanesIsEarliest | examples/at/project_at7_gpu_like_throughput_saturation.cpp:471-480 | the scan over the lanes yields the earliest of the service end and the lanes' ready times |
| GpuTheorems.IssueReadyKeeps | examples/at/project_at7_gpu_like_throughput_saturation.cpp:380-436 | issuing keeps the invariant, leaves nobody able to issue and every ready lane marked blocked |
| GpuInvariant.CompleteKeeps | examples/at/project_at7_gpu_like_throughput_saturation.cpp:343-363 | a completion keeps the agreement of all counters, times and areas |
| GpuInvariant.StartKeeps | examples/at/project_at7_gpu_like_throughput_saturation.cpp:365-378 | a start keeps it |
| GpuInvariant.IssueKeeps | examples/at/project_at7_gpu_like_throughput_saturation.cpp:392-424 | an issue keeps it, with the next ready time of the lane |
| GpuInvariant.MarkKeeps | examples/at/project_at7_gpu_like_throughput_saturation.cpp:428-434 | marking blocked lanes keeps it |
| GpuInvariant.AdvanceKeeps | examples/at/project_at7_gpu_like_throughput_saturation.cpp:500-503 | moving time to the next event keeps it: the areas grow by what the ages of the requests in flight and queued grow |
| GpuRun.EventLoop.RunCase | examples/at/project_at7_gpu_like_throughput_saturation.cpp:324-508 | the event loop on mutable state ends with the result of the value model, with its failure if there is one |
| GpuRun.EventLoop.RunIteration | examples/at/project_at7_gpu_like_throughput_saturation.cpp:438-504 | one pass of the loop is one step of the value model |
| GpuRun.EventLoop.CompleteAllDue | examples/at/project_at7_gpu_like_throughput_saturation.cpp:441-446 | the nested completion loops refine the drain of due completions |
| GpuRun.EventLoop.IssueReadyRequests | examples/at/project_at7_gpu_like_throughput_saturation.cpp:380-436 | the repeated passes over the lanes refine the value model |
| FabricTheorems.RunEnds | examples/at/project_at6_heterogeneous_soc_fabric.cpp:412-456 | under every policy and token gap the loop ends with every record served and never breaks out early |
| FabricTheorems.IterateProgresses | examples/at/project_at6_heterogeneous_soc_fabric.cpp:412-456 | one pass keeps the invariant and decreases (unserved, not enqueued, before the token), so every wake-up advances time |
| FabricTheorems.ServedExactlyOnce | examples/at/project_at6_heterogeneous_soc_fabric.cpp:436-454 | each record occurs exactly once in the order of service |
| FabricTheorems.PolicyDoesNotMoveTheEnd | examples/at/project_at6_heterogeneous_soc_fabric.cpp:402-456 | without a token gap every policy ends at the finish time of the plain FIFO server |
| FabricTheorems.IterateConserves | examples/at/project_at6_heterogeneous_soc_fabric.cpp:412-456 | without a token gap no iteration stalls, and each keeps time plus pending work equal to the FIFO finish of the enqueued records |
| FabricTheorems.ServeConserves | examples/at/project_at6_heterogeneous_soc_fabric.cpp:436-454 | a service keeps that law |
| FabricTheorems.ServicesDisjoint | examples/at/project_at6_heterogeneous_soc_fabric.cpp:440-453 | service intervals are disjoint and in log order |
| FabricTheorems.InitiatorOrderKept | examples/at/project_at6_heterogeneous_soc_fabric.cpp:332-346 | each initiator is served in issue order |
| FabricTheorems.TokenRate | examples/at/project_at6_heterogeneous_soc_fabric.cpp:323-330 | the j-th NPU-like start is at least j - i gaps after the i-th, under every policy |
| FabricTheorems.TokenWindow | examples/at/project_at6_heterogeneous_soc_fabric.cpp:449-451 | a window of length L holds at most floor(L / gap) + 1 NPU-like starts |
| FabricReport.NoLongerThanTheToken | examples/at/project_at6_heterogeneous_soc_fabric.cpp:412-451 | no service starts later than the end of the one before, the issue of a record that waits and, if that record is NPU-like, one gap after the start of the last NPU-like service: work conservation with the token included |
| FabricReport.StartsAreExact | examples/at/project_at6_heterogeneous_soc_fabric.cpp:436-451 | every service starts exactly at the latest of the end of the one before, its issue and, if NPU-like, one gap after the start of the last NPU-like service; delays, end and latency follow |
| FabricArrivals.DepthsAreExact | examples/at/project_at6_heterogeneous_soc_fabric.cpp:402-447 | every record of a finished run reports as its depth the older ones that had not started before it arrived, and starvation exactly by its delay or that depth |
| FabricArrivals.PeakIsReached | examples/at/project_at6_heterogeneous_soc_fabric.cpp:405-407 | the reported queue peak is one more than the largest of these depths |
| FabricTheorems.RoundRobinWait | examples/at/project_at6_heterogeneous_soc_fabric.cpp:359-372 | a record whose initiator no token holds back sees at most three other services start before its initiator is served |
| FabricTheorems.PriorityWait | examples/at/project_at6_heterogeneous_soc_fabric.cpp:374-388 | under both priority orders every record that no token holds back waits for one service in progress and then only for records that stand no lower in the order, older ones if of its own initiator, without idling |
| FabricTheorems.CpuWait | examples/at/project_at6_heterogeneous_soc_fabric.cpp:374-388 | so a CPU-like record waits only for older CPU-like records |
| FabricTheorems.IspWait | examples/at/project_at6_heterogeneous_soc_fabric.cpp:374-388 | an ISP-like record waits only for CPU-like and older ISP-like records |
| FabricTheorems.CappedDmaWait | examples/at/project_at6_heterogeneous_soc_fabric.cpp:374-378 | under the capped order a DMA-like record does not wait for NPU-like ones |
| FabricInvariant.SelectIsBest | examples/at/project_at6_heterogeneous_soc_fabric.cpp:348-389 | the position selected is eligible, the oldest of its initiator, and its initiator stands first among the eligible ones in the policy's order, for round robin and for the full rank order of both priorities; none is selected only if none is eligible |
| FabricInvariant.ServeKeeps | examples/at/project_at6_heterogeneous_soc_fabric.cpp:436-454 | a service keeps the bookkeeping and adds a log entry that obeys the policy, the token spacing in both directions and work conservation, NPU-like records included |
| FabricInvariant.WakeKeeps | examples/at/project_at6_heterogeneous_soc_fabric.cpp:426-434 | a wake-up keeps the invariant and strictly advances time |
| FabricRun.Scheduler.RunFabricModel | examples/at/project_at6_heterogeneous_soc_fabric.cpp:391-466 | the loop on mutable state ends in the final state of the value model |
| FabricRun.Scheduler.SelectPendingPosition | examples/at/project_at6_heterogeneous_soc_fabric.cpp:348-389 | the loops over initiators and positions refine the selection function |
| MshrTheorems.FcfsIffTieFree | examples/at/project_at4_cache_mshr_pressure.cpp:352-367 | the model is the first-come-first-served reference schedule, a function of the input, if and only if no miss looks up before a reference grant on which two reference ends coincide |
| MshrPool.FcfsIffNoTieExploited | examples/at/project_at4_cache_mshr_pressure.cpp:352-367 | the same read off the run: if and only if no miss looks up before a time at which a full pool dropped more than one entry |
| MshrPool.TieBreaksFcfs | examples/at/project_at4_cache_mshr_pressure.cpp:352-360 | the next miss after such a tie that looks up too early is granted too early |
| MshrTheorems.TieExample | examples/at/project_at4_cache_mshr_pressure.cpp:333-371 | a concrete run in which three misses are in service with a capacity of two |
| MshrTheorems.GrantsInOrderIffTieFree | examples/at/project_at4_cache_mshr_pressure.cpp:333-371 | misses are granted in record order if and only if the tie condition holds |
| MshrTheorems.CapacityIffTieFree | examples/at/project_at4_cache_mshr_pressure.cpp:352-367 | at most `capacity` misses are in service at every instant if and only if the tie condition holds |
| MshrTheorems.PoolIsBusy | examples/at/project_at4_cache_mshr_pressure.cpp:352-367 | a first-come-first-served pool has, from the last lookup on, the lesser of its capacity and its unfinished misses in service |
| MshrTheorems.NeverLater | examples/at/project_at4_cache_mshr_pressure.cpp:352-367 | no run, with ties or without, grants a miss later than the first instant with a free entry |
| MshrTheorems.NoneDelayedIffNoIntruder | examples/at/project_at4_cache_mshr_pressure.cpp:352-367 | for any two capacities, the larger delays no miss if and only if it delays none of those that the smaller pool granted while all its entries were taken |
| MshrTheorems.MoreCapacityNeverDelays | examples/at/project_at4_cache_mshr_pressure.cpp:352-367 | a larger capacity delays no miss of a first-come-first-served run, whether or not the larger pool exploits ties |
| MshrTheorems.TiesCanMakeMoreCapacityDelay | examples/at/project_at4_cache_mshr_pressure.cpp:352-367 | in a run that exploits a tie a third entry delays the fourth miss from 4 to 12 |
| MshrPool.TracksAlways | examples/at/project_at4_cache_mshr_pressure.cpp:333-367 | for every run the tracked ends never exceed the capacity and agree with all miss ends above the latest removal |
| MshrPool.RunSharedResourceModel | examples/at/project_at4_cache_mshr_pressure.cpp:321-374 | the loop over the records computes the value model; what its records hold is stated by the lemmas of the report module |
| MshrReport.HitsAreExact | examples/at/project_at4_cache_mshr_pressure.cpp:329-350 | in every run a hit answers accept, lookup and hit latency after its request, later by 0.35 of the interference for each miss it finds tracked, which is its blocked time; its response ends 1 ns after |
| MshrReport.MissesAreExact | examples/at/project_at4_cache_mshr_pressure.cpp:352-372 | in every run a miss answers a service time after its grant; it finds the pool full exactly when it waits, its queueing and blocked time are that wait, and its peak is one more than its occupancy, up to the capacity |
| MshrReport.OccupancyIffNoTieDropped | examples/at/project_at4_cache_mshr_pressure.cpp:333-335 | in a first-come-first-served run the reported occupancy never exceeds the number of unfinished misses, up to the capacity, and equals it if and only if no tie was dropped at a grant still ahead of the lookup |
| EndTimes.PruneCompleted | examples/at/project_at4_cache_mshr_pressure.cpp:264-270 | pruning keeps exactly the ends after the time, in their order: an increasing list of all their positions gives the result |
| EndTimes.EarliestEnd | examples/at/project_at5_backpressure_qos_collapse.cpp:282-285 | the scan returns the least end |
| TandemQueues.ListsBounded | examples/at/project_at5_backpressure_qos_collapse.cpp:383-413 | neither list ever exceeds its capacity, in any processing order |
| TandemQueues.TimestampsOrdered | examples/at/tools/demo_at5_backpressure_qos_collapse.py:588-614 | every row passes the trace check on timestamp order, and its latency is the sum of its parts |
| TandemQueues.SingleServer | examples/at/project_at5_backpressure_qos_collapse.cpp:415-423 | each record starts when both it and the server are ready |
| TandemQueues.EndsIncrease | examples/at/project_at5_backpressure_qos_collapse.cpp:417-422 | service intervals are disjoint, in processing order |
| TandemQueues.EndIsLongestBacklog | examples/at/project_at5_backpressure_qos_collapse.cpp:415-423 | each service end is the maximum, over the records so far, of enqueue time plus all service from that record on |
| TandemQueues.ServiceFitsTrace | examples/at/tools/demo_at5_backpressure_qos_collapse.py:640-646 | the service of a whole trace fits strictly between its first request and last response, so the utilization clamp never bites |
| TandemBuffer.BoundedBufferIffNoneOvertakes | examples/at/project_at5_backpressure_qos_collapse.cpp:398-413 | every record is enqueued at the maximum of its candidate and the end of the record `capacity` places back, if and only if nobody overtakes in the reference schedule of the input; the run is then that schedule |
| TandemQueues.DownstreamIsBoundedBuffer | examples/at/project_at5_backpressure_qos_collapse.cpp:398-413 | the same for one record of the run; candidates in order suffice |
| TandemQueues.EnqueueIs | examples/at/project_at5_backpressure_qos_collapse.cpp:398-413 | for every input, overtaken or not: a record is held back for the end `capacity` places before it unless an earlier record has passed that end |
| TandemSchedule.ScheduleIsRun | examples/at/project_at5_backpressure_qos_collapse.cpp:378-423 | for every input the run is a schedule that keeps all ends and never prunes the downstream list |
| TandemSchedule.OccupancyIffUncrowded | examples/at/project_at5_backpressure_qos_collapse.cpp:399-423 | the records really queued or in service never exceed the capacity if and only if, in the schedule of the input, no record's stay is intruded on by more released records than its next `capacity - 1` records leave places by arriving late |
| TandemSchedule.CrowdedExample | examples/at/project_at5_backpressure_qos_collapse.cpp:398-413 | the overtaking example does not meet the condition |
| TandemBuffer.OccupancyIffEntrants | examples/at/project_at5_backpressure_qos_collapse.cpp:399-423 | the same read off the run: if and only if no record sees more than `capacity` records, itself included, enqueued before it ends |
| TandemBuffer.OvertakingExample | examples/at/project_at5_backpressure_qos_collapse.cpp:398-413 | a concrete run that breaks the buffer formula and holds three records in a queue of two |
| TandemQueues.OccupancyBounded | examples/at/project_at5_backpressure_qos_collapse.cpp:399-423 | then the records really queued or in service never exceed the capacity |
| TandemQueues.JainIndexNeedsNoClamp | examples/at/tools/demo_at5_backpressure_qos_collapse.py:664-669 | for non-negative throughputs, not all zero, the fairness index is between 1/3 and 1, and 1 exactly when they are equal |
| TandemQueues.Admit | examples/at/project_at5_backpressure_qos_collapse.cpp:383-393 | one queue's admission: the candidate enters at the first instant with a free place, and a free place is left |
| TandemQueues.AdmitIsFirstFree | examples/at/project_at5_backpressure_qos_collapse.cpp:383-393 | the admission time is the first instant from the candidate on at which fewer than `capacity` entries are ahead |
| TandemQueues.RunBackpressureModel | examples/at/project_at5_backpressure_qos_collapse.cpp:367-441 | the loop over the records computes the value model; what its records hold is stated by the lemmas of the report module |
| TandemReport.BlockedIsExact | examples/at/project_at5_backpressure_qos_collapse.cpp:395-431 | in every run the blocked time is the service begin less the request and the 1 ns of the pipeline, which is the arbitration delay plus the stall; the full marks are the depths at capacity, and the response times follow |
| TandemReport.DepthsAreExact | examples/at/project_at5_backpressure_qos_collapse.cpp:383-400 | each record reports as queue depths exactly the earlier records that hold a place when it arrives: those not released by then nor by any admission since they entered |
| Arbitration.ChooseWeightedGrants | examples/at/qos_sensitivity_sla/main.cpp:515-533 | the choice is pending; the fatal report is reached exactly when nothing is; with a slot for everyone the second scan never decides |
| Arbitration.ScanFindsFirst | examples/at/qos_sensitivity_sla/main.cpp:517-523 | the scan grants the first ready slot from the cursor on and leaves the cursor just behind it |
| Arbitration.ShareOfTheSlotsAhead | examples/at/qos_sensitivity_sla/main.cpp:515-533 | over any run, while an initiator stays pending the others get at most one grant for each of their slots in the rest of the turn |
| Arbitration.WeightedShares | examples/at/qos_sensitivity_sla/main.cpp:397-407 | in every window of W consecutive grants anywhere in a run each backlogged initiator gets exactly its weight, one that stays pending at least its weight, and its wait is at most W minus its weight |
| Arbitration.PolicyGrants | examples/at/multi_initiator_arbitration/main.cpp:506-537 | under each of the three policies a grant is made exactly when someone is pending, to someone pending |
| Arbitration.RoundRobinIsUnitWeights | examples/at/multi_initiator_arbitration/main.cpp:508-516 | round robin is the weighted scan with one slot each, read from behind the last winner |
| Arbitration.RoundRobinWait | examples/at/multi_initiator_arbitration/main.cpp:508-516 | whoever stays pending waits through at most two other grants |
| Arbitration.WeightedPolicyShares | examples/at/multi_initiator_arbitration/main.cpp:526-533 | five grants with everyone pending go 1, 1 and 3 |
| Arbitration.FixedPriorityStarves | examples/at/multi_initiator_arbitration/main.cpp:518-524 | while initiator 1 stays pending it takes every grant of a run of any length |
| ArbitrationOrder.FixedPriorityIsRespected | examples/at/multi_initiator_arbitration/main.cpp:518-524 | every grant of a fixed-priority run goes to the pending initiator that stands highest in the order 1, 0, 2 |
| ArbitrationOrder.WeightedPolicyInOrder | examples/at/multi_initiator_arbitration/main.cpp:526-533 | a backlogged run under the weighted policy grants 2 three times, then 0, then 1, and so on round from the cursor |
| ArbitrationOrder.RoundRobinInOrder | examples/at/multi_initiator_arbitration/main.cpp:508-516 | a backlogged round-robin run grants the initiators in cyclic order from behind the last winner |
| ArbitrationOrder.WeightsInIndexOrder | examples/at/qos_sensitivity_sla/main.cpp:397-407 | a backlogged run grants initiator 0 as often as its weight, then 1, then 2, and so on round from the cursor |
| ArbitrationOrder.BackloggedFollowsOrder | examples/at/qos_sensitivity_sla/main.cpp:515-523 | a backlogged run walks any order from the cursor, one slot a grant |
| ArbitrationOrder.WeightlessComeLast | examples/at/qos_sensitivity_sla/main.cpp:517-530 | an initiator with no slot is granted only when nobody with a slot is pending, the lowest index first, and the cursor stays |
| TargetModel.FinishServiceKeepsSlots | examples/at/qos_sensitivity_sla/main.cpp:633-701 | the underflow report is unreachable, the accept loop and the single shot admit the same, and slots, queues and order are kept |
| TargetModel.ReceiveKeepsSlots | examples/at/qos_sensitivity_sla/main.cpp:603-631 | BEGIN_REQ at the target keeps the slot accounting and the order of arrival, and marks the request as back-pressured exactly when the admitted requests without a response number the depth |
| HandshakeInvariant.StepKeeps | examples/at/qos_sensitivity_sla/main.cpp:264-701 | every step of every interleaving keeps the invariant and reaches no fatal report |
| HandshakeInvariant.NextIsNew | examples/at/multi_initiator_arbitration/main.cpp:421-446 | the oldest pending request of an initiator is its next transaction and was never granted before |
| HandshakeTheorems.EveryRun | examples/at/multi_initiator_arbitration/main.cpp:263-752 | every run is free of fatal reports, has at most eight steps a transaction plus one an initiator, can be continued exactly while shorter, and ends with all initiators done and every transaction through every phase once |
| HandshakeTheorems.StepUsesOne | examples/at/multi_initiator_arbitration/main.cpp:263-704 | every step uses up exactly one unit of the remaining work |
| HandshakeTheorems.EndIsEnd | examples/at/multi_initiator_arbitration/main.cpp:737-749 | all initiators done, no thread runnable and no work left are the same |
| HandshakeTheorems.DoneIsDrained | examples/at/multi_initiator_arbitration/main.cpp:737-749 | when the simulation stops because all are done, every queue is empty |
| HandshakeTheorems.StuckIsDone | examples/at/qos_sensitivity_sla/main.cpp:535-562 | deadlock freedom: with no thread runnable every initiator is done |
| HandshakeTheorems.RequestExclusion | examples/at/qos_sensitivity_sla/main.cpp:457-470 | exactly one request is between BEGIN_REQ and END_REQ on the hop to the target while `downstream_pending_` holds, and none otherwise; slots in use are the admitted requests without a response, at most the depth; at most one request waits |
| HandshakeMarks.MarkedIffFull | examples/at/multi_initiator_arbitration/main.cpp:614-619 | in every reachable state a transaction is marked as back-pressured if and only if, at its BEGIN_REQ at the target, as many earlier ones had no response as the target has slots |
| HandshakeTheorems.PhasesInOrder | examples/at/qos_sensitivity_sla/main.cpp:644-701 | BEGIN_RESP order is a prefix of END_REQ order, which is a prefix of grant order; per initiator all phases follow issue order |
| HandshakeTheorems.WinnerOrderIsBijection | examples/at/multi_initiator_arbitration/main.cpp:539-570 | `winner_order` is a bijection between the granted transactions and 1 to their number |
| HandshakeTheorems.WinnerOrderKeepsIssueOrder | examples/at/multi_initiator_arbitration/main.cpp:546-560 | `winner_order` orders each initiator's transactions as they were issued |
| HandshakeTheorems.ArbitersAreGrants | examples/at/multi_initiator_arbitration/main.cpp:506-552 | what either arbiter picks is a grant the step system allows, and both pick whenever a grant is possible |
| HandshakeTheorems.GrantMeetsTheRule | examples/at/qos_sensitivity_sla/main.cpp:535-562 | a grant finds no request outstanding at the target and sends a new one |
| HandshakeRun.WeightedInterconnect.ArbitrateRequests | examples/at/qos_sensitivity_sla/main.cpp:535-562 | the arbitration loop makes exactly one grant, the one chosen, if nothing is outstanding and something pending, and otherwise changes nothing |
| HandshakeRun.WeightedInterconnect.ChooseNextInitiator | examples/at/qos_sensitivity_sla/main.cpp:515-533 | both scans on the mutable cursor refine the choice function |
| HandshakeRun.WeightedInterconnect.BuildWeightedOrder | examples/at/qos_sensitivity_sla/main.cpp:397-407 | the nested loops build each initiator's slots in index order |
| HandshakeRun.SimpleAtInterconnect.ChooseNextInitiator | examples/at/multi_initiator_arbitration/main.cpp:506-537 | the three policies' loops refine the choice function |
| HandshakeRun.Fabric.Grant | examples/at/qos_sensitivity_sla/main.cpp:542-559 | pops the winner's oldest request, numbers it, sets the downstream flag and hands it to the target; reports the total depth before |
| HandshakeRun.MemoryTarget.BeginReq | examples/at/qos_sensitivity_sla/main.cpp:603-631 | accepts if a slot is free, marking nothing, and otherwise queues the request and marks it as back-pressured |
| HandshakeRun.MemoryTarget.TryAcceptWaitingRequests | examples/at/qos_sensitivity_sla/main.cpp:633-642 | the accept loop refines the recursive admission |
| HandshakeRun.MemoryTarget.TryAcceptWaitingRequest | examples/at/multi_initiator_arbitration/main.cpp:638-648 | the single shot admits the oldest waiting request if a slot is free |
| HandshakeRun.MemoryTarget.SendEndReq | examples/at/qos_sensitivity_sla/main.cpp:655-669 | END_REQ clears the interconnect's flag and moves the transaction to the service queue |
| HandshakeRun.MemoryTarget.SendBeginResp | examples/at/qos_sensitivity_sla/main.cpp:685-698 | BEGIN_RESP reaches the initiator, frees a slot and admits waiting requests, or reports underflow |
| HandshakeRun.InitiatorThread.SendEndResp | examples/at/qos_sensitivity_sla/main.cpp:322-348 | counts the response and marks the initiator done after the last |
| HandshakeTop.Top.Take | examples/at/qos_sensitivity_sla/main.cpp:264-701 | whichever thread runs next, the objects' joint state moves as the step system says, and the invariant is kept |
| HandshakeTop.Top.Run | examples/at/qos_sensitivity_sla/main.cpp:264-701 | a whole schedule of the wired objects ends where the step system's run ends |
| HandshakeFairness.WinnersAreChoices | examples/at/qos_sensitivity_sla/main.cpp:535-562 | the winners of a run of the step system under an arbiter are the arbiter's choices over the pending queues at its grants |
| HandshakeFairness.PendingIsGranted | examples/at/qos_sensitivity_sla/main.cpp:515-562 | from every reachable state and cursor, an initiator with a pending request sees at most the sum of the other two weights in grants before its own |
| HandshakeFairness.PendingIsGrantedInTurn | examples/at/multi_initiator_arbitration/main.cpp:506-552 | under round robin it sees at most two |
| HandshakeFairness.BackloggedShares | examples/at/qos_sensitivity_sla/main.cpp:397-562 | a run of as many grants as the weights add up to, backlogged throughout, gives each initiator exactly its weight |
| TimedTarget.MoveKeeps | examples/at/qos_sensitivity_sla/main.cpp:603-701 | every timed move keeps the relation between arrival, admission and END_REQ instants |
| TimedReport.BlockedMeansBackpressured | examples/at/qos_sensitivity_sla/main.cpp:655-665 | in every timed run blocked time is exactly the wait for a slot, so the clamp never bites; it is positive only for a request that found all slots taken, and those are exactly the marked ones |
| TimedReport.MarkedIffFull | examples/at/qos_sensitivity_sla/main.cpp:603-631 | in every timed run a request is marked as back-pressured if and only if it found as many admitted requests without a response as there are slots; any other is admitted at its BEGIN_REQ and gets END_REQ 1 ns later |
| TimedReport.MemoryIsFifoServer | examples/at/qos_sensitivity_sla/main.cpp:672-701 | the memory is one server in END_REQ order: each response begins a service latency after the later of its END_REQ and the response before it |
| TimedTarget.NeverStuck | examples/at/qos_sensitivity_sla/main.cpp:644-672 | after every timed run that leaves a request in the target some move other than a new request is possible |
| DirectLink.ActKeeps | examples/at/four_phase_memory_timing/main.cpp:222-278 | the direct initiator and target stay in step: neither the END_REQ mismatch report nor the underflow report is reachable |
| DirectLink.DirectRuns | examples/at/four_phase_memory_timing/main.cpp:614-623 | in every run at most one request is outstanding on the hop, and the reported blocked time is the accept latency beyond 1 ns for every answered request |
| DirectProgress.EveryDirectRun | examples/at/four_phase_memory_timing/main.cpp:218-254 | with time moving from event to event every run has at most twelve acts a request and one more; nothing is scheduled exactly when every request is sent, answered and served, and then each has had its END_REQ |
| DirectProgress.MeasureFalls | examples/at/four_phase_memory_timing/main.cpp:218-254 | every scheduled act, time included, lowers the measure |
| DirectReport.SendsAreExact | examples/at/four_phase_memory_timing/main.cpp:218-249 | in every run the first request is sent at once, and each later one at the later of the END_REQ of the one before it and the gap after its BEGIN_REQ |

## Left out

- IEEE double rounding, the 1e-9 tolerances of AT-6 and AT-7, and three-decimal formatting: times are exact reals and the tolerances zero.
- Issue-time, address, size and hit formulas and the service-time tables of AT-4, AT-5 and AT-6: inputs with sign and order hypotheses. AT-7's service delay and latency hiding are modelled.
- The initial sorts of AT-4, AT-5 and AT-6 (records arrive in the sorted order) and the final sorts of AT-5 and AT-6, which only reorder the output.
- GpuTheorems.RunEnds: assumes that every service takes time and that gaps are not negative, as in every shipped case; how a case with a zero base service time goes on after its first hop is not modelled further.
- MshrTheorems.NoneDelayedIffNoIntruder: the condition is on the two runs; `TieFree` on the input suffices for it, and no form on the input alone is given that is also necessary.
- TandemQueues.ListsBounded: for the ingress queue only the capacity bound is stated, because its releases are not in order.
- Handshake threads are atomic steps between waits, and notifications enable steps; delta cycles, sockets and payload memory of the SystemC kernel are foreign code.
- HandshakeTheorems.RequestExclusion: only on the hop from the interconnect to the target. The initiators of AT-2 and AT-3 do not wait for END_REQ, and response exclusion is enforced nowhere.
- DirectLink.DirectRuns: AT-1's response half is left out, as it repeats AT-2's. The timed target under an arbitrary environment (`TimedTarget`) has no termination result, since new requests may come for ever.
- Per-record diagnostic fields of the handshake projects (queue depth on accept, status, the initiators' own timestamps): easy members.
- The target and initiator sides of TLM phase errors ("unexpected phase"): no component modelled here sends such a phase.
- Percentiles, throughput tables, CSV and Markdown writers, bottleneck labels, argument parsing and the Python demos' I/O: a single reading settles them.
