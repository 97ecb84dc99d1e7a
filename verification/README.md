# Resource allocation and monitoring, verified

This project models the allocation and monitoring core of the repository (Intel Resource
Director Technology: cache allocation, memory bandwidth allocation, cache and bandwidth
monitoring) and proves what that code is for. `dafny verify dfyconfig.toml` checks all of it.

**The register machine** (`Topology`, `Registers`, `Bits`, `Arith`, `Capabilities`,
`Discovery`). `Registers.Msr` is the register file: an association register per logical core
(class of service in bits 63..32, RMID in bits 9..0), L3 masks, throttles and the CDP enable
register per socket, L2 masks per L2 cluster. Every access asks a fault oracle, so each
operation is proved for failures at any point; `NoFault` says that a range of accesses met
none, and `Failures` counts those that did. Below, "without faults" means that none of the
operation's own accesses fails. Hardware refuses or ignores masks with too few bits, as the
chip description says. Ghost results such as `done` or `ws` tell how far the register writes of
a failing operation got. The layout is that of the Intel Software Developer's Manual, volume 3,
sections 17.16 and 17.17.

**Allocation** (`CosAssign`, `ClassConfig`, `MbaRate`, `Api`, `AllocReset`, `MinCbm`) models
the operations on those registers; `CosRuns`, `ResetRuns` and `MaskRuns` prove what holds in
every state that any sequence of them reaches. **Configuration of CPU groups** (`RdtConfig`,
`RdtClass`, `Isolation`, `ClassBudget`, `Rdtset`, with two instructive inputs in `RdtExamples`)
composes them into isolation, rollback and guaranteed success of `alloc_configure`, for any mix
of requests and for hardware that refuses or ignores short masks. `Configured` says what a
configured CPU gets, in terms of its request and of the registers alone. **Monitoring**
(`Monitoring`, `MonRuns`, `Polling`) hands out RMIDs, tags cores, and sums counters. **The
resctrl backend** (`Numerals`, `Schemata`, `SchemataRoundTrip`, `SchemataLines`,
`OsAllocation`, `Cpumask`, `OsAssoc`) prints and parses the text files of the kernel interface
and changes them entry by entry. `QuotaSearch` is the pruned quota search, `TopProcs` the
bounded selection of the busiest processes.

The code updates registers, tables and files step by step, so each operation is a method over
that state, proved against functions and predicates of the state before; the lemmas reason
about these. Words are naturals below 2^64, wrapped or cut where the C code wraps or cuts.

What the code needs of its callers appears as `requires`, or as a hypothesis of the claim that
needs it: class ids fit the table of 16 (`lib/allocation.c:223`), socket or cluster ids are
0..n-1 where a count serves as an id range (`rdtset/rdt.c:1293-1298`,
`lib/allocation.c:497-498`), RMIDs fit 10 bits (`lib/monitoring.c:72`), the throttle step is
positive, core ids fit the 4096-bit mask table.

Properties one might expect and that the code does not have are stated with an input on which
they fail and the exact condition under which they hold:

- the two backends apply the same rate exactly when rounding does not pass 100
  (`MbaRate.BackendsAgree`, `MbaRate.RoundingPastFull`);
- an odd number of L3 mask registers loses one when CDP is switched on and off
  (`ResetRuns.OddRegisterLost`), and a register that the classes do not cover is not reset
  (`ResetRuns.UncoveredRegisterStays`);
- the cached CDP flag describes the machine exactly in the states where no failed reset has
  switched some sockets without a later one having switched all (`ResetRuns.AgreementIff`,
  `ResetRuns.RunAgreesIff`, `ResetRuns.HalfSwitchedDisagrees`);
- on hardware that silently ignores short masks, a configuration that succeeds is in force
  exactly where its masks are long enough or were in the registers already
  (`RdtClass.RequestInForceIff`, `Isolation.ServedInForceIff`, `RdtExamples.ShortMaskIgnored`);
- groups are kept apart in L2 clusters, and in sockets where no group asks for L2; a step keeps
  them apart in any socket exactly if no two groups come to share a class there, which a request
  that includes L2 does not prevent (`Isolation.SeparateIff`, `RdtExamples.SocketClassShared`);
- some core has a non-zero RMID outside every active group exactly if a start was not fully
  undone or a stop did not reach all its cores (`MonRuns.MonitoringInvariant`);
- a bandwidth delta over several poll contexts is right only under the condition of
  `Polling.ContextsDelta`; `Polling.TwoContextsMiscount` gives inputs without it;
- a counter that is late three times in a row is reported as it last showed, as a success
  (`Polling.MonRead`);
- the pruned quota search is exact for every cost if and only if more cache and bandwidth keep a
  point feasible on the grid (`QuotaSearch.PruningIsExact`, `QuotaSearch.PruningNeedsMonotone`);
- the comparator of the process list cuts a 64-bit difference to `int`
  (`TopProcs.CompareRightIff`), so the busiest process may be left out (`TopProcs.BusiestLost`);
- the full cpus text is longer than what the reader takes (`Cpumask.FullTextDoesNotFit`);
- the number reader takes text without any digit for 0, exactly if a line feed comes first after
  an optional 0x (`Numerals.AcceptedWithoutDigits`, `Numerals.LineFeedIsZero`).

## Model

| member | source | states |
|---|---|---|
| `Bits.IsContiguous` | lib/api.c:453-465 | the shifting check terminates and accepts exactly the 64-bit masks that are one non-empty run of ones |
| `Bits.IsContiguousByCount` | rdtset/rdt.c:188-212 | the check that compares the first run with the number of set bits terminates and accepts exactly the same masks |
| `Bits.RunByShifting` | lib/api.c:453-465 | a mask is one run if and only if nothing is left after its low zeros and then its low ones are shifted out |
| `Bits.BitsCount` | rdtset/rdt.c:167-175 | clearing the lowest set bit until none is left counts the set bits |
| `Bits.AndPredecessor` | rdtset/rdt.c:167-175 | `x & (x - 1)` has exactly one set bit fewer and is smaller, so the counting loop ends |
| `Bits.AndAbove` | rdtset/rdt.c:739-747 | a mask has no bit in common with the complement of the cache's ways if and only if it is below 2^ways |
| `Topology.GetIds` | lib/utils.c:68-103 | the distinct socket or cluster ids in order of first appearance: every id that a core has, none twice |
| `Topology.IdsInOrder` | lib/utils.c:68-103 | their first positions in the table ascend |
| `Topology.GetCores` | lib/utils.c:158-190 | exactly the logical cores of one socket or cluster, in listing order |
| `Topology.ListedInOrder` | lib/utils.c:158-190 | the positions of those cores ascend and none is left out |
| `Topology.GetOne` | lib/utils.c:249-290 | the first core of a socket or cluster; none if and only if no core has the id |
| `Topology.FirstIsFirst` | lib/utils.c:249-290 | no core listed before it has the id |
| `Topology.GetCoreInfo` | lib/utils.c:232-246 | the record of a logical core; none if and only if the core is unknown |
| `Topology.DenseIds` | rdtset/rdt.c:1293-1298 | distinct ids that are all below their number are exactly 0..n-1, so the count can serve as an id range |
| `Registers.AssocFields` | lib/allocation.c:931-949 | writing the COS half of ASSOC keeps the other 32 bits, writing the RMID keeps the COS half, and each field reads back as written |
| `Registers.Msr.Write` | lib/machine.c:243-287 | an accepted write changes exactly the addressed register of the core's socket or cluster (nothing if hardware ignores the value); a failing one changes nothing |
| `Registers.Msr.Read` | lib/machine.c:193-237 | a read that meets no fault returns the register shared by the core's socket or cluster |
| `Registers.WriteBank` | lib/allocation.c:352-392 | writes through one core of the socket or cluster take effect in order and stop at the first failure, leaving a prefix done |
| `Capabilities.HiCos` | lib/allocation.c:126-178 | the highest class that all requested technologies have: the smallest of their class counts minus 1; an error exactly when one of them has none |
| `Capabilities.CapTable.L3CdpChange` | lib/cap.c:1695-1722 | turning CDP on halves the cached class count, turning it off doubles it, no change leaves everything; other technologies are untouched |
| `Discovery.CdpIsEnabled` | lib/cap.c:496-553 | reports the enable bit that all sockets share; without register faults it fails exactly when sockets differ |
| `Discovery.DiscoverL3` | lib/cap.c:703-747 | the cached CDP flag is every socket's enable bit, and with CDP on the class count is half the register count |
| `Discovery.DiscoveredIsSound` | lib/cap.c:729-744 | what discovery caches satisfies the premises of every reset run: flag and bits agree, and the classes use all mask registers (all but an odd one with CDP on) |
| `Discovery.DiscoveredStep` | lib/cap.c:954-966 | the discovered throttle step and maximum add up to 100 as a usable step exactly when the reported maximum is below 100 |
| `Discovery.DiscoveredMba` | lib/cap.c:954-966 | what discovery makes of each reported field; the step wraps past 100 |
| `MbaRate.RoundedIsNearest` | lib/allocation.c:852-853 | the rounded rate is a multiple of the step within half a step of the request, ties upwards |
| `MbaRate.BackendsAgree` | lib/os_allocation.c:974-978 | register and resctrl backends apply the same rate if and only if rounding does not pass 100; past 100 the register backend applies the lowest rate |
| `MbaRate.RoundingPastFull` | lib/allocation.c:852-857 | a step of 40 is an input on which the backends differ: rate 100 becomes 40 on registers and 120 in resctrl |
| `MbaRate.AppliedRate` | lib/allocation.c:849-861 | for a step dividing 100 both backends apply the multiple of the step nearest to the request, raised to one step when that would be 0 |
| `MbaRate.RateMonotone` | lib/allocation.c:849-861 | a higher request never yields a lower applied rate |
| `MbaRate.RateIdempotent` | lib/allocation.c:906-916 | requesting the rate that was applied applies it again |
| `CosAssign.CosAssocSet` | lib/allocation.c:931-949 | success replaces only the COS half of one core's ASSOC; failure changes nothing |
| `CosAssign.CosAssocGet` | lib/allocation.c:189-204 | the class that the core's ASSOC register holds |
| `CosAssign.HighestFree` | lib/allocation.c:258-268 | the class returned is unused in the scope and every higher class up to the limit is in use; 0 only when all are |
| `CosAssign.GetUnusedCos` | lib/allocation.c:218-271 | the scan of association registers returns the highest class of 1..hi that no core of the socket (of the L2 cluster for L2 requests) holds, or Resource exactly when all are held |
| `CosAssign.OneEntity` | lib/allocation.c:1030-1056 | the one socket or L2 cluster that all cores belong to, or none exactly when there is no such one |
| `CosAssign.HwAllocAssign` | lib/allocation.c:1015-1076 | verdict for every input; cores reached before a failure hold one class unused before in the scope, every other register and bit is as before |
| `CosAssign.HwAllocRelease` | lib/allocation.c:1079-1092 | moves the cores to class 0, going on after failures: at most as many known cores are missed as accesses failed, in at most two accesses for each core, and success says that none was missed |
| `CosRuns.StepKeepsExclusive` | lib/allocation.c:1015-1092 | one call, failing midway or not, keeps exclusivity of classes in L2 clusters, and in sockets when no call asks for L2 |
| `CosRuns.CosExclusivity` | lib/allocation.c:218-271 | in every run of assignments, releases and resets, cores of one L2 cluster share a non-zero class only if the same assignment put them there; without L2 requests the same per socket |
| `CosRuns.NoFreeClass` | lib/allocation.c:258-270 | there is no free class if and only if each of 1..hi is held in the scope, hence never while fewer than hi of its cores are outside class 0 |
| `ClassConfig.HwL3caSet` | lib/allocation.c:324-394 | the exact register writes for each entry (two per class with CDP on), a prefix of them on failure; a CDP entry is refused exactly when CDP is off |
| `ClassConfig.HwL3caGet` | lib/allocation.c:397-462 | each class as the socket's mask registers hold it, in CDP layout when CDP is on |
| `ClassConfig.HwL2caSet` | lib/allocation.c:590-638 | class ids out of range are refused before any write; otherwise one mask register per entry of the cluster, in order |
| `ClassConfig.HwL2caGet` | lib/allocation.c:641-681 | each class's mask, cut to 32 bits, as the cluster's registers hold it |
| `ClassConfig.HwMbaSet` | lib/allocation.c:804-879 | writes the rounded throttle of each entry and reports the rate read back from the register |
| `ClassConfig.HwMbaGet` | lib/allocation.c:882-920 | 100 minus each throttle register, with the wrap-around of the unsigned subtraction |
| `ClassConfig.L3SetThenGet` | lib/allocation.c:324-462 | after a set of accepted masks each class reads back as the last entry naming it; other classes and sockets read as before |
| `ClassConfig.L2SetThenGet` | lib/allocation.c:590-681 | the same for L2 clusters |
| `ClassConfig.MbaSetThenGet` | lib/allocation.c:849-916 | the rate a get computes is the one the set reported for the last entry naming the class; all else is as before |
| `Api.PqosL3caSet` | lib/api.c:468-519 | an empty list or a mask that is not one run is refused without any write; whatever is written consists of runs only |
| `Api.PqosL2caSet` | lib/api.c:593-635 | the same for L2 |
| `Api.PqosMbaSet` | lib/api.c:710-754 | a rate outside 1..100 is refused without any write; on success each entry's applied rate is reported |
| `Api.PqosAllocAssign` | lib/api.c:217-253 | no technology or no core is refused; otherwise the assignment's verdict and effect |
| `Api.PqosAllocRelease` | lib/api.c:256-285 | an empty core list is refused; otherwise the release's effect |
| `Api.PqosAllocAssocGet` | lib/api.c:113-142 | the core's class; Param exactly for unknown cores, Resource exactly when neither L2 nor L3 allocation exists |
| `AllocReset.CosReset` | lib/allocation.c:1158-1174 | success fills the first registers of the bank with the value; after a failure every register holds its old value or that one |
| `AllocReset.AssocReset` | lib/allocation.c:1186-1196 | moves every core to class 0, going on after failures: at most as many cores are missed as accesses failed; RMIDs stay |
| `AllocReset.CdpEnable` | lib/allocation.c:1106-1141 | sets or clears only the enable bit, socket by socket; a failure stops it before the last socket is written |
| `AllocReset.HwAllocReset` | lib/allocation.c:1199-1382 | refusals change nothing; success leaves 2^ways - 1 in every class mask, no throttle, class 0 everywhere, and CDP on with every enable bit set, off with every one clear, or as it was, for the three requests; failure leaves each register old or reset and the cache unchanged, and reached the CDP bits only after all else, of some sockets but never of all; each core missed by the associations takes a failing access |
| `AllocReset.ResetCarriedOut` | lib/allocation.c:1270-1343 | what it writes: 2^ways - 1 in the first registers of every mask bank, 0 in the throttles, 0 in the class half of every association |
| `AllocReset.CdpCarriedOut` | lib/allocation.c:1345-1376 | what a CDP request comes to: enable bits, cached flag and classes |
| `ResetRuns.ResetIsPristine` | lib/allocation.c:1270-1343 | a successful reset reaches every register of the machine although it writes through one core per socket or cluster, given that the cached classes cover the L3 registers |
| `ResetRuns.UncoveredRegisterStays` | lib/allocation.c:1257-1260 | when they do not cover them, the last mask register of every socket keeps its old mask |
| `ResetRuns.StepAgreement` | lib/allocation.c:1345-1376 | after a reset, complete or cut short, flag and bits agree if and only if it did not stop among the sockets and either switched all of them or found them in agreement |
| `ResetRuns.AgreementIff` | lib/cap.c:1695-1722 | in every state of every run of resets, with register failures anywhere, the cached flag is every socket's enable bit if and only if no failed reset switched some sockets without a later one having switched all |
| `ResetRuns.RunAgreesIff` | lib/allocation.c:1106-1141 | over a whole run: agreement in every state if and only if no failed reset switched a socket |
| `ResetRuns.ResetAgreement` | lib/cap.c:1695-1722 | in every run of resets with any CDP options and register failures anywhere, the classes never use more than the existing mask registers and all of them for an even number, each successful reset leaves the machine pristine, and flag and bits agree exactly as above |
| `ResetRuns.OddRegisterLost` | lib/cap.c:1709-1718 | switching CDP on and off loses a mask register exactly when their number is odd |
| `ResetRuns.HalfSwitchedDisagrees` | lib/allocation.c:1106-1141 | a failure between two sockets' CDP writes, after which no cached flag describes the machine |
| `MaskRuns.StepKeepsMasks` | lib/api.c:489-504 | a set, reset or probe, complete or cut short, keeps every L3 and L2 mask register one run of ones |
| `MaskRuns.MasksStayRuns` | lib/allocation.c:1281-1286 | from full masks, in every state that sets, resets and probes reach, every L3 and L2 mask register is one run of ones |
| `MaskRuns.ReportedMasksAreRuns` | lib/allocation.c:397-462 | so every L3 definition a get reports after such a run passes the contiguity check of a set |
| `MinCbm.FindFree` | lib/allocation.c:497-515 | the first socket or cluster id with an unused class, and that class; Resource exactly when every one is full |
| `MinCbm.TryL3` | lib/allocation.c:527-564 | an attempt touches only the probed class, and is confirmed exactly when the mask has at least the hardware's minimum of bits |
| `MinCbm.ProbeL3` | lib/allocation.c:517-582 | whatever fails, only the probed class's registers differ and hold a tried mask; they are as before on success, when no access of the restoring set failed, and, if the probe found no answer, unless two accesses failed; when none failed the answer is the hardware's minimum |
| `MinCbm.HwL3caGetMinCbmBits` | lib/allocation.c:465-587 | when no access fails: exactly the hardware's minimum and all registers as before if some socket has a free class, Resource otherwise; the probed class is never one in use on the probed socket; restored after failures as the probe says |
| `MinCbm.HwL2caGetMinCbmBits` | lib/allocation.c:684-801 | the same for L2 clusters |
| `RdtConfig.CheckCpus` | rdtset/rdt.c:610-653 | success means that every CPU exists and is in class 0; a CPU in use or an unknown one is there when it is named as the cause, and any other failure takes a register fault or a platform without cache allocation |
| `RdtConfig.CheckL3CbmLen` | rdtset/rdt.c:807-883 | success exactly when no requested mask, code or data, has a bit above the cache's ways |
| `RdtConfig.CheckL2CbmLen` | rdtset/rdt.c:807-883 | the same for L2 |
| `RdtConfig.CheckCdpSupport` | rdtset/rdt.c:663-689 | success exactly when CDP is on or no configuration asks for it |
| `RdtConfig.CheckSupported` | rdtset/rdt.c:700-728 | success exactly when every requested technology exists |
| `RdtConfig.CheckCpusOverlapping` | rdtset/rdt.c:571-600 | success exactly when the groups are pairwise disjoint |
| `RdtConfig.AllocValidate` | rdtset/rdt.c:894-919 | success implies all of the above; without register faults every set of configurations that meets them is accepted |
| `RdtClass.CfgConfigureCos` | rdtset/rdt.c:1106-1196 | only the given class of the core's socket and cluster changes; on success the throttle is the request (rate 100 where nothing was asked) and each L3 and L2 register shows its mask (all ways where nothing was asked) if the hardware takes it, and what it showed before if the hardware ignores it; without faults it succeeds whenever the masks are acceptable |
| `RdtClass.RequestInForceIff` | rdtset/rdt.c:1135-1153 | after success the L3 request reads back if and only if each of its masks is long enough for the hardware or was in the register already |
| `RdtClass.L2InForceIff` | rdtset/rdt.c:1155-1172 | the same for L2 |
| `Configured.DefinedMeans` | rdtset/rdt.c:1106-1196 | on success the data, code and L2 registers of the class get the masks of the request, or 2^ways - 1 where it has none, and the throttle register leaves the multiple of the step nearest to the rate asked for, or all of the bandwidth |
| `RdtExamples.ShortMaskIgnored` | rdtset/rdt.c:1135-1153 | a request for one way that succeeds without faults and leaves two ways to the class |
| `Isolation.StepKeepsServed` | rdtset/rdt.c:1293-1331 | handing an unused class to cores of one socket or cluster and defining it leaves every CPU outside them served as before |
| `Isolation.StepServes` | rdtset/rdt.c:1293-1331 | and serves those cores; a mask that is ignored is still the one from the start of the whole configuration |
| `Isolation.SeparateIff` | rdtset/rdt.c:1301-1325 | after such a step a group that holds all or none of the cores is separate in a socket or cluster if and only if nobody there on its other side held the class |
| `Isolation.StepKeepsSeparate` | rdtset/rdt.c:1301-1325 | which an unused class guarantees in L2 clusters, and in every socket except the one in which an L2 request searched only a cluster |
| `Isolation.ServedInForceIff` | rdtset/rdt.c:1135-1153 | the L3 request of a served CPU is in force on its socket if and only if each of its masks is long enough or was in the register at the start |
| `Rdtset.CfgSetCoresMsr` | rdtset/rdt.c:1286-1334 | success serves every CPU of the group, per socket or per L2 cluster, and disturbs nobody else; each socket and cluster has at most one more class in use for each place where the group was served; without faults it succeeds whenever a class is free wherever the group has cores |
| `Rdtset.AllocRelease` | rdtset/rdt.c:1011-1040 | moves the set's cores to class 0 and nothing else, missing at most as many as accesses failed |
| `Rdtset.Revert` | rdtset/rdt.c:1461-1466 | releases groups from the failed one down to the first, whatever each release returns: at most as many CPUs are not as at the start as accesses failed, in at most two accesses for each CPU |
| `Rdtset.AllocConfigure` | rdtset/rdt.c:1405-1472 | isolation, on every chip: on success every CPU has a non-zero class that nobody outside its group has in its L2 cluster, with the L2 mask asked for, and the same for L3 mask and throttle in every socket where no group asks for L2, masks that the hardware ignores being those from before; rollback: after a failure the associations are as before but for at most as many CPUs as accesses failed, and for fewer if the configuration could be served, so that a single failing access leaves none; they are all as before when the rollback's own accesses succeed; success is guaranteed when none of its accesses fails and classes suffice |
| `Configured.ConfiguredCpu` | rdtset/rdt.c:1405-1472 | so every CPU of a group has in bits 63..32 of its register a class that no core outside the group has there, which exists for all that is asked for and has those masks and that share |
| `RdtExamples.SocketClassShared` | rdtset/rdt.c:1286-1334 | two groups on one socket, one of them with an L2 request: both are configured successfully and share the one class and its L3 mask |
| `Rdtset.BudgetLeavesFree` | rdtset/rdt.c:1311-1325 | while the classes used at the start plus those that earlier groups take in a socket or cluster are fewer than hi, the next group finds a free one there |
| `ClassBudget.FewUsedLeavesFree` | lib/allocation.c:258-270 | with fewer than hi distinct classes in use in a scope, one of 1..hi is free |
| `Monitoring.MonAssocSet` | lib/monitoring.c:422-442 | success replaces one core's RMID and keeps its COS half; failure changes nothing |
| `Monitoring.MaxRmid` | lib/monitoring.c:310-324 | the smallest RMID count of the requested events, an error exactly when one is not listed or the count is 0 |
| `Monitoring.RmidAlloc` | lib/monitoring.c:282-372 | the highest RMID below every listed count of the events which no core of the cluster carries; without faults it fails exactly when there is none |
| `Monitoring.LimitIsSupport` | lib/monitoring.c:310-324 | below the limit is exactly what every event asked for supports |
| `Monitoring.OneMoreContext` | lib/monitoring.c:961-973 | although RMID0 may be searched, it is never handed out: the checked core still carries it in the scanned cluster |
| `Monitoring.ChooseContexts` | lib/monitoring.c:950-1006 | on success every core is known and on RMID0, and each of their L3 clusters has one context with an RMID that nobody uses there and that is not 0 |
| `Monitoring.TagCores` | lib/monitoring.c:1030-1056 | cores reached before a failure carry the RMID of their cluster; all COS halves and all other cores are as before |
| `Monitoring.UntagCores` | lib/monitoring.c:1066-1069 | the undo returns the cores to RMID0, going on after failures: at most as many keep their new RMID as accesses failed, in at most two accesses for each core |
| `Monitoring.HwMonStart` | lib/monitoring.c:904-1080 | on success exactly the group's cores carry new RMIDs, each the highest unused one in its L3 cluster that the table allows for every event but performance counters; after a failure fewer cores carry a new RMID than accesses failed, so that a single failing access leaves none, and none does when the undo's own accesses succeed; COS halves always stay; success is guaranteed when none of its accesses fails and RMIDs are left |
| `Monitoring.HwMonStop` | lib/monitoring.c:1083-1141 | every core of the group returns to RMID0 but for at most as many known ones as accesses failed, and the group is cleared; a refused stop changes nothing |
| `MonRuns.StepKeepsSound` | lib/monitoring.c:950-1141 | one start or stop, failing midway or not, keeps every active group tagged with RMIDs that no other core of the cluster carries, and groups disjoint |
| `MonRuns.MonitoringInvariant` | lib/monitoring.c:950-1138 | in every run: active groups have disjoint cores and different non-zero RMIDs in common L3 clusters; all their cores carry non-zero RMIDs, and no other core does if and only if every failed start was undone and every stop reached all its cores |
| `MonRuns.AllocationKeepsRmids` | lib/allocation.c:943-945 | assignments, releases and resets are no step of the monitoring machine: every core's RMID stays |
| `Polling.MonRead` | lib/monitoring.c:537-585 | success returns the counter of the RMID in the core's cluster, unless all three reads came too early: then what the last of them showed, still as a success; the number of reads is exact; fails when the selection is refused |
| `Polling.ReadTotal` | lib/monitoring.c:602-620 | the 64-bit sum of an event over the group's contexts, unless some counter was late three times in a row |
| `Polling.CorePoll` | lib/monitoring.c:596-760 | unless some counter was late three times in a row, occupancy is the sum over the contexts times the listed scale of its event, each bandwidth total is the 64-bit sum and each delta the difference to the last reading times the scale of its own event, 0 on the first poll; a failed poll leaves the first-poll flag |
| `Polling.ScaledInUnits` | lib/monitoring.c:396-407 | a raw value is turned into units by the scale of the first listed monitor of its event, or stays as it is if none is listed |
| `Polling.GroupCountsOnce` | lib/monitoring.c:603-621 | when hardware counts per cluster and RMID, the sum over a group's contexts is the sum over its distinct cores, each once |
| `Polling.NoDoubleCounting` | lib/monitoring.c:982-1061 | in every run of starts and stops this holds of every active group, and all groups together never exceed the system total |
| `Polling.StartedIsReadable` | lib/monitoring.c:596-621 | in every run the contexts of an active group name a core of their cluster and a 10-bit RMID, so a poll of the group reads exactly the counters that the sums over contexts speak of |
| `Polling.DeltaIsTraffic` | lib/monitoring.c:1209-1215 | the difference of two 24-bit readings is the true traffic if and only if it is below one counter turn |
| `Polling.ContextsDelta` | lib/monitoring.c:622-643 | for any number of contexts, whose readings are summed before the difference is taken, and any traffic, the delta is right if and only if no counter turned over, or one did once and the traffic is below one turn, or the 64-bit difference came round |
| `Polling.ContextsDeltaPerTurn` | lib/monitoring.c:622-643 | with less than a turn of each counter, only the first two cases remain |
| `Polling.TwoContextsMiscount` | lib/monitoring.c:622-643 | two contexts of which one turns over report no traffic at all when they had exactly one turn of it together |
| `Polling.DeltasTelescope` | lib/monitoring.c:749-755 | over any run of successful polls of a one-context group less than a turn apart the reported deltas add up to the scaled true traffic since the first poll, whose own delta is 0 |
| `Numerals.PrintedReadsBack` | lib/resctrl_alloc.c:123-138 | every 64-bit number printed in decimal or hexadecimal reads back, at the end of the text or before a line feed |
| `Numerals.Alphabet` | lib/resctrl_alloc.c:123-138 | the hexadecimal digits are 0-9 and a-f, read in either case |
| `Numerals.NumberReads` | lib/resctrl_alloc.c:123-138 | white space, a sign or none, and digits up to the end or a line feed read as that number, cut at 2^64 - 1, or taken from 2^64 after a minus sign; anything else behind the digits is refused |
| `Numerals.PrefixReads` | lib/resctrl_alloc.c:123-138 | behind 0x the text is read in base 16 |
| `Numerals.AcceptedWithoutDigits` | lib/resctrl_alloc.c:123-138 | for every text and base: text without a scanned digit is accepted if and only if what is left after an optional 0x starts with a line feed, and then as the number 0 |
| `Numerals.LineFeedIsZero` | lib/resctrl_alloc.c:123-138 | such texts: a lone line feed, one with more behind it, one behind 0x; empty text is refused |
| `Schemata.ResctrlSchemata.Set` | lib/resctrl_alloc.c:511-543 | stores the value in the one entry of that kind and id, cut to the field's width; refuses ids out of range and labels of the other CDP mode |
| `Schemata.ResctrlSchemata.Read` | lib/resctrl_alloc.c:546-637 | the line and token loops compute the parser specification, including what is stored before an error |
| `Schemata.ResctrlSchemata.Write` | lib/resctrl_alloc.c:640-717 | the text in so many words: a line each with L2:, then L3: or L3CODE: and L3DATA:, then MB:, every id in decimal with its mask in hexadecimal or its rate in decimal |
| `Schemata.PrintsLiterally` | lib/resctrl_alloc.c:640-717 | the printer as lines of literal labels and id=value pairs |
| `SchemataLines.L2LineRead` | lib/resctrl_alloc.c:462-637 | a line with the label L2 in either case and any ids and masks stores them in the L2 entries of those ids, cut to 32 bits, and nothing else, whatever text follows |
| `SchemataLines.L3LineRead` | lib/resctrl_alloc.c:462-637 | the same for L3 and the masks of a schemata without CDP |
| `SchemataLines.CodeLineRead` | lib/resctrl_alloc.c:462-637 | L3CODE stores code masks and leaves data masks |
| `SchemataLines.DataLineRead` | lib/resctrl_alloc.c:462-637 | L3DATA stores data masks and leaves code masks |
| `SchemataLines.RateLineRead` | lib/resctrl_alloc.c:462-637 | MB stores decimal rates, cut to 32 bits |
| `SchemataLines.NoColonRefused` | lib/resctrl_alloc.c:569-628 | a line without a colon ends the reading with an error and stores nothing |
| `SchemataLines.NoEqualsRefused` | lib/resctrl_alloc.c:569-628 | so does, under a known label, a first entry without an equals sign |
| `SchemataLines.NoNumberRefused` | lib/resctrl_alloc.c:569-628 | or with an id or a value that is no number in its base |
| `SchemataLines.NoEntryRefused` | lib/resctrl_alloc.c:511-543 | or with an id that is not there, or for the other CDP mode |
| `SchemataRoundTrip.ReadAppend` | lib/resctrl_alloc.c:569-628 | a text of whole lines is read before whatever follows it, with the same result |
| `SchemataRoundTrip.UnknownLineIgnored` | lib/resctrl_alloc.c:587-592 | inserting a line with an unknown label between any two lines of any text changes nothing |
| `SchemataRoundTrip.RoundTrip` | lib/resctrl_alloc.c:546-717 | reading the printed text into any schemata of the same shape gives back exactly the original, for any number of ids whose lines fit the buffer |
| `SchemataRoundTrip.FewIdsFit` | lib/resctrl_alloc.c:553 | up to 700 ids always fit the 16 KiB line buffer |
| `OsAllocation.RoomWithFewIds` | lib/resctrl_alloc.c:553 | so with up to 700 sockets and L2 clusters the lines of every group fit it |
| `OsAllocation.GroupsHaveAll` | lib/resctrl_alloc.c:52-108 | every class below the group count has all technologies of the OS interface |
| `OsAllocation.GroupsAreFewest` | lib/resctrl_alloc.c:52-108 | the number of groups is the class count of the technology with the fewest |
| `OsAllocation.SchemataInit` | lib/resctrl_alloc.c:356-459 | one zero entry per cluster or socket for each technology that has the class, in the current CDP mode, rates 100 |
| `OsAllocation.UpdateSchemata` | lib/os_allocation.c:578-618 | succeeds exactly when the group's file can be read, and then the file reads as before but for the one entry; on failure no file changes |
| `OsAllocation.OsL3caSet` | lib/os_allocation.c:538-625 | exact success condition; entries before a failing one have taken effect; every file reads as before but for the last entry naming its class |
| `OsAllocation.OsL2caSet` | lib/os_allocation.c:727-803 | the same for L2, with class ids checked before any write |
| `OsAllocation.OsMbaSet` | lib/os_allocation.c:906-1002 | the same for rounded rates, and the rates reported are those read back |
| `OsAllocation.OsL3caGet` | lib/os_allocation.c:628-690 | exact success condition; each group's entry for the socket as its file reads |
| `OsAllocation.OsL2caGet` | lib/os_allocation.c:806-869 | the same for L2 |
| `OsAllocation.OsMbaGet` | lib/os_allocation.c:1005-1066 | the same for rates |
| `OsAllocation.L3SetFrame` | lib/os_allocation.c:538-690 | after a set, a get shows the last entry naming each class on that socket; every other socket, class and technology shows what it did |
| `OsAllocation.L2SetFrame` | lib/os_allocation.c:727-869 | the same for L2 |
| `OsAllocation.MbaSetFrame` | lib/os_allocation.c:906-1066 | the same for rates |
| `Cpumask.CpumaskSet` | lib/resctrl_alloc.c:218-227 | the mask holds exactly the cores it held and the new one |
| `Cpumask.CpumaskGet` | lib/resctrl_alloc.c:230-239 | whether the mask holds the core |
| `Cpumask.CpumaskWrite` | lib/resctrl_alloc.c:242-273 | the text is every byte as two digits, a comma after every fourth |
| `Cpumask.CoreInText` | lib/resctrl_alloc.c:242-273 | where in the text the bit of a core stands: eight digits and a comma for each 32 cores, highest cores first |
| `Cpumask.CommasInText` | lib/resctrl_alloc.c:242-273 | a comma behind each eight digits, and nothing else |
| `Cpumask.Convert` | lib/resctrl_alloc.c:305-328 | the conversion loop, from the last character back, yields the mask that the hexadecimal digits spell, skipping all else |
| `Cpumask.CoreFromText` | lib/resctrl_alloc.c:305-328 | core l is in the mask exactly if bit l % 4 of the digit l / 4 from the end is set |
| `Cpumask.SeparatorSkipped` | lib/resctrl_alloc.c:305-328 | a character that is no hexadecimal digit is skipped wherever it stands |
| `Cpumask.TextReadsBack` | lib/resctrl_alloc.c:242-330 | the conversion loop undoes the writer for every 4096-bit mask |
| `Cpumask.LeadingZeros` | lib/resctrl_alloc.c:305-328 | zeros and separators in front of any text do not change what it converts to |
| `Cpumask.ShortTextReadsBack` | lib/resctrl_alloc.c:276-330 | through the real 512-byte read, the text without leading zero groups gives back the mask if it has at most 511 characters |
| `Cpumask.FullTextDoesNotFit` | lib/resctrl_alloc.c:276-330 | read back verbatim, the writer's own text gives back the mask if and only if the mask is empty |
| `OsAssoc.OsAllocAssocSet` | lib/os_allocation.c:227-261 | exact verdict; success writes the text of exactly the mask read plus the core and no other file, failure writes nothing |
| `OsAssoc.OsAllocRelease` | lib/os_allocation.c:409-434 | the same for all named cores in group 0; any core id not below the number of cores prevents the write |
| `OsAssoc.OsAllocAssocGet` | lib/os_allocation.c:264-293 | the lowest group whose mask holds the core |
| `OsAssoc.SetThenRead` | lib/os_allocation.c:252-260 | read in the short form, the written file holds exactly the old cores and the added ones |
| `QuotaSearch.DrangeHolds` | pqos/get_best_quota.py:24-27 | every value a whole number of steps below the start and above the end is produced |
| `QuotaSearch.DrangeIndex` | pqos/get_best_quota.py:24-27 | and the range produces nothing else, in that order |
| `QuotaSearch.ValuesAreSteps` | pqos/get_best_quota.py:24-27 | the values tried are the maximum minus whole steps, as long as that is above the minimum |
| `QuotaSearch.SearchLlc` | pqos/get_best_quota.py:59-74 | for any predictor and cost the two inner loops with their breaks return the cheapest of the points no break hides and the best so far |
| `QuotaSearch.GetQuotaFromIpc` | pqos/get_best_quota.py:44-80 | for any predictor and cost the result is all maxima or a point, whole steps below the maxima and above the minima, that reaches the instruction rate; nothing cheaper is among the maxima and the points that no break hides |
| `QuotaSearch.PruningIsExact` | pqos/get_best_quota.py:59-74 | the result is as good as an exhaustive search for every cost if and only if on the grid more of a feasible point's cache with full bandwidth, and more of its bandwidth, stay feasible; a monotone predictor has this |
| `QuotaSearch.PrunedIsMissed` | pqos/get_best_quota.py:59-74 | otherwise there is a cost for which the search returns a dearer point than a feasible one |
| `QuotaSearch.PruningNeedsMonotone` | pqos/get_best_quota.py:59-61 | a predictor and a cost for which every result the search can return costs twice as much as the feasible point it never tries |
| `TopProcs.CompareIsOrder` | pqos/monitor.c:1317-1338 | for tick counts whose difference fits an int, the comparator is the order by ticks, then usage |
| `TopProcs.CompareRightIff` | pqos/monitor.c:1337 | its sign is right on a pair if and only if the difference of ticks, cut to 32 bits, keeps its sign |
| `TopProcs.FarTicksMiscompare` | pqos/monitor.c:1337 | a process 2^32 ticks ahead compares as equal |
| `TopProcs.Offer` | pqos/monitor.c:1378-1412 | one more process keeps the table full and made of the processes offered, and, while the comparator is right on them, sorted and holding the largest |
| `TopProcs.FillTopProcs` | pqos/monitor.c:1354-1416 | the result is a sub-multiset of the valid entries of size min(k, number valid); if the comparator is right on their pairs it is sorted and every valid entry left out is at most every entry kept; a single slot holds the winner of the comparisons in list order |
| `TopProcs.BusiestLost` | pqos/monitor.c:1354-1416 | with one slot, a process that is 2^32 ticks ahead of the other is left out |

## Left out

- The API lock (`lib/cap.c:217-245`): every call is one atomic step; nothing is claimed about several processes.
- CPUID, opening the register device, mounting file systems and reading `/proc`: their results are parameters or state of the model.
- Memory allocation failures and log output.
- Performance-counter programming, IPC and the remote-bandwidth clamp (`lib/monitoring.c:644-759`): the outcome of starting and stopping those counters is the parameter `perfStarts` or `perfStops`.
- Process ids: `cfg_set_pids`, their task lists, and `os_alloc_assign`, whose search reads them.
- `cfg_set_cores_os` and `os_alloc_reset`: they add no state beyond the operations modelled here but the mount.
- `lib/os_monitoring.c`: its delta is `UINT64_MAX - old + new`, which is not a modular difference.
- Option parsing, printing and the shell commands of the tools; training and loading of the predictor, which is an arbitrary function here.
- MinCbm.HwL3caGetMinCbmBits: at most 30 ways, because `1 << ways` is a signed 32-bit shift; the saved masks are ones the hardware takes.
- MinCbm.HwL2caGetMinCbmBits: the same, and L2 masks fit the 32 bits of their definition.
- Schemata.ResctrlSchemata.Write: all L3 entries have the same CDP flag; with mixed flags the C union would be read through its other member.
- OsAllocation.UpdateSchemata: a file stores what is written; what the kernel refuses or rewrites is not modelled, and neither are read and write errors on a file that exists. The groups are those that initialisation creates, and every technology has a class.
- OsAllocation.OsMbaSet: rates are at most 100 and the step is 1..100, as the entry point and discovery ensure.
- OsAssoc.OsAllocAssocSet: that the kernel takes a core out of its other groups is not modelled.
- Polling.CorePoll: the values of a poll in which a counter was late three times in a row; each single read states what it reports then.
- QuotaSearch.GetQuotaFromIpc: numbers are reals, so rounding of floats is not modelled, and neither is the rounding of the cpu value for display.
- TopProcs.FillTopProcs: order and choice for lists on some of whose pairs the comparator is wrong: the C standard leaves the order that `qsort` produces undefined then. The library's `qsort` is represented by an insertion sort, of which only a permutation is used in that case.
