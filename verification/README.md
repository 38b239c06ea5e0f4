# sysstat: verified models

Dafny models of the parts of sysstat whose correctness depends on several
functions or on a whole run, with proofs of what they keep.

- **pidstat's task list** (`TaskModel`, `TaskSamples`, `TaskOrder`,
  `TaskGroups`, `TaskOutcomes`, `TaskCounterexamples`, `TaskNodes`,
  `TaskDisplay`, `TaskDisplayPass`). One linked list of thread group leaders
  and their threads, into which nodes are inserted behind a moving cursor,
  marked nonexistent, marked again while /proc is scanned, and swept.
  `TaskNodes.TaskList` holds the nodes; its methods are proved equal to
  functions on sequences, about which the properties are proved: what every
  sample and every run keeps, which tasks a sample leaves, and what a display
  pass shows.
- **The device namer of ioconf.c** (`Numerals`, `DeviceTable`, `DeviceName`,
  `DeviceNaming`, `DeviceRecords`). Base-26 numerals without a zero, a table
  of majors that share templates, disk numbers in mixed radix, and the names
  of all devices of a file in terms of its records.
- **mpstat's sampling engine** (`CpuStats`, `CpuSampler`, `CpuRuns`,
  `NodeStats`, `Interrupts`, `InterruptTables`, `InterruptRuns`, `IrqLookup`,
  with `Folds` and `Bitmaps`). Two alternating sample buffers and a saved
  first one, counters carried forward for offline CPUs, sums over CPUs and
  NUMA nodes, interrupt tables whose columns are the online CPUs and whose
  rows may move.
- **iostat's report loop** (`DeviceStats`, `GroupPass`, `DeviceLines`,
  `DeviceReport`). One pass over a list in which the header of a group stands
  before its members and has its turn after them.
- **Small algorithms** of common.c and raw_stats.c: value lists (`ValueSets`,
  `Tokenizer`), exact overflow tests (`Overflow`), bounded escaping
  (`Escape`), the field cursor (`FieldCursor`) and the circular search
  (`PreviousItem`).

Counters have the widths of the program: 64-bit and 32-bit sums wrap around.
What comes from outside (the contents of /proc and /sys, the outcome of a
read, what a filter finds in a task) is a parameter, so every statement holds
for all of it.

Where the code does not meet a property for all inputs, one lemma says exactly
when it does, and another gives an input for which it does not:

- add_list_pid looks a leader up by number without asking whether the node is
  a leader (`AddKeepsOrderIff`, `AliasedLeader`);
- so a number that is reused between two samples, or a PID that is met twice
  in one sample, can leave a thread whose leader is freed
  (`SampleKeepsOrderIff`, `ReusedNumberLeavesDanglingPointer`,
  `LateFailureLeavesDanglingPointer`);
- ioc_ito26 of the largest 32-bit number is the empty string
  (`Ito26RoundTrip`, for both);
- a record of the ioconf file can take the template away from entries that are
  based on its major (`InvariantStepIff`, `RepeatedMajorStripsFollower`);
- majors that share a template through an indirect record of an indirect one
  have different reference counts, and names can coincide (`SiblingNamesIff`,
  `NestedMajorsShareNames`);
- with an explicit controller number, large minors repeat names
  (`ExplicitNamesIff`, `ExplicitControllerRepeatsNames`);
- a reference sample can vanish between the computation of CPU "all" and that
  of the nodes (`NodesMakeAllIff`, `VanishedReferenceIsLost`), and node "all"
  counts CPUs without a node twice (`NodeAllIff`, `UnplacedCpuCountsTwice`);
- a header of /proc/interrupts that is not ascending forwards totals of online
  CPUs (`CoverIff`, `TotalsRestartIff`, `DescendingHeaderForwardsOnlineCpu`);
- interrupts whose names are equal in 15 characters can be mixed up
  (`EveryRowIsFoundIff`, `RepeatedNamesMislead`);
- in the further parts of a report in several parts, groups are empty
  (`LaterPartsHideGroups`, `BusyGroupIsHidden`);
- a 64-bit sector counter that wraps from a small value is taken for one of 32
  bits (`WideCounterIff`, `SmallWrapIsMisread`);
- ranges of more than 15 characters are cut (`LongTokenIff`, `LongRangeIff`,
  `LongTokenIsCut`), and numbers beyond an int can pass for small ones
  (`ParseValstrIff`, `LargeNumberPassesForSmall`);
- item 0 of a starred field can be asked for only once (`StarredFieldIff`,
  `SecondAllIsTheStem`).

Two conditions are sufficient only, each with an input for which names coincide
without it: a partition prefix that keeps a decimal disk numeral apart from the
partition number (`Separated`, `UnseparatedNamesCoincide`), and a disk prefix
that does so for an explicit controller number (`StopsNumber`,
`ExplicitControllersCoincide`).

To check the project: `dafny verify dfyconfig.toml`.

## Model

| member | source | states |
|---|---|---|
| `TaskModel.HeadOwnsGroup` | pidstat.c:277-340 | In a list that add_list_pid built, a thread stands in the group of its leader, its tgid pointer is that leader, and TIDs ascend within the group. |
| `TaskModel.OwnerIsEarlierLeader` | pidstat.c:277-340 | A tgid pointer of a well-formed list is a leader that is in the list, in front of the thread. |
| `TaskModel.KeysAreUnique` | pidstat.c:253-349 | No two nodes have the same leader and number. |
| `TaskModel.AddKeepsOrderIff` | pidstat.c:253-349 | add_list_pid keeps the list a sequence of groups if and only if the first node bearing the TGID is a leader: the search at line 292 does not ask. |
| `TaskModel.AddKeepsLeadersAscend` | pidstat.c:263-285 | Leaders stay ascending even where numbers alias. |
| `TaskModel.AddIsKeyedInsertion` | pidstat.c:253-349 | Insertion into a map keyed by (leader or none, number): no node exactly for PID 0 or an absent leader; else the node with that key, added only if there was none, all other nodes and their order untouched. |
| `TaskModel.AddTwiceIsAddOnce` | pidstat.c:253-349 | A repeated call returns the same node and leaves the list alone, for every list and with aliases too. |
| `TaskModel.SweepMembers` | pidstat.c:153-174 | A node is left by the sweep exactly if it was in the list and exists. |
| `TaskModel.SweepKeepsOrderIff` | pidstat.c:153-174 | The sweep keeps the list a sequence of groups, so that every tgid pointer stays valid, if and only if no existing thread has a leader that does not exist. |
| `TaskSamples.LeaderIsFound` | pidstat.c:263-285 | In a list with ascending leaders the PID of a leader leads back to its own node. |
| `TaskSamples.VisitThreadsKeepsLeaders` | pidstat.c:1037-1063 | Reading the threads of a task moves the cursor node at most further down the list, and the leaders from it on stay the same: the measure of the scan. |
| `TaskOrder.VisitKeepsOrderIff` | pidstat.c:1012-1034 | One visit keeps the list in order if and only if, when threads are read, no thread with the number of the PID stands in front of its leader. |
| `TaskOrder.ClearIsNoAliasAtEachCall` | pidstat.c:926-956 | That one look in front of the threads tells whether each call of add_list_pid for them finds a leader under the number of the PID. |
| `TaskOrder.ScanKeepsOrderIff` | pidstat.c:998-1063 | After every visit of a scan the list is in order if and only if every visit is of that kind. |
| `TaskOrder.ScanTold` | pidstat.c:926-1063 | The exist flags after a scan are what was last heard of each task, by the visits alone. |
| `TaskOrder.SampleKeepsOrderIff` | pidstat.c:976-1067 | A sample keeps the list a sequence of groups all along, after each visit with any outcomes and after the sweep, if and only if every visit is of that kind and no thread was last read successfully whose leader was last found terminated; then all tasks exist. |
| `TaskOrder.RunKeepsOrderIff` | pidstat.c:3640-3710 | A run keeps the list in order all along if and only if each sample does so where it starts. |
| `TaskOrder.OrderedRunEnds` | pidstat.c:3640-3710 | Such a run ends with an ordered list of existing tasks. |
| `TaskGroups.OwnedNumbersDoNotAlias` | pidstat.c:287-296 | If every number belongs to one group, no leader is ever looked up under a number first met on a foreign thread. |
| `TaskGroups.NoLateFailureLeavesNothing` | pidstat.c:1012-1034 | If no PID that was read is met again as terminated, no thread is left over. |
| `TaskGroups.SampleKeepsOrder` | pidstat.c:976-1067 | Enough for a sample: numbers name one group each in the old list and the sample together, and no PID fails late. A number that is reused for another group since the last sample is not covered. |
| `TaskGroups.RunKeepsOrder` | pidstat.c:3640-3710 | The same for runs: a number may change groups only after a sample without it. Every tgid pointer is then a task of the list. |
| `TaskGroups.ListedVisitsDoNotFailLate` | pidstat.c:1037-1063 | With PIDs on the command line the leaders are met in ascending order, so no PID is met twice. |
| `TaskGroups.ListedSampleKeepsOrder` | pidstat.c:1037-1066 | In that mode the assumption on numbers is enough. |
| `TaskOutcomes.LeaderHeardIff` | pidstat.c:1012-1034 | What a scan last hears of a leader: it was visited, and its last visit succeeded. |
| `TaskOutcomes.ThreadHeardIff` | pidstat.c:926-956 | What it last hears of a thread: the last successful visit of its leader that listed it ended with success for it. |
| `TaskOutcomes.SampleIsAsRead` | pidstat.c:976-1067 | A sample that keeps the order leaves exactly the leaders and threads of which that holds, whatever was in the list. |
| `TaskOutcomes.ListedSampleIsAsProbed` | pidstat.c:1037-1066 | With PIDs on the command line, in terms of what each read brings: a leader stays exactly if its read succeeded, its threads are those whose last entry succeeded, and none without threads wanted. |
| `TaskOutcomes.ListedSampleOutcome` | pidstat.c:1037-1066 | In particular in any ordered list whose numbers name one group each. |
| `TaskCounterexamples.AliasedLeader` | pidstat.c:287-296 | A list and a call for which add_list_pid breaks the order. |
| `TaskCounterexamples.ReusedNumberLeavesDanglingPointer` | pidstat.c:976-1067 | An ordered list of existing tasks and two visits, after which a tgid pointer dangles: the number of an old thread has become that of a process. |
| `TaskCounterexamples.LateFailureLeavesDanglingPointer` | pidstat.c:1012-1034 | A PID met twice in one sample, the second time terminated, loses its node while its thread stays: the pointer dangles. |
| `TaskNodes.TaskList.AddLeader` | pidstat.c:263-285 | The pointer scan for a leader does to the nodes what the specification does to the sequence. |
| `TaskNodes.TaskList.AddThread` | pidstat.c:287-348 | The same for a thread. |
| `TaskNodes.TaskList.AddListPid` | pidstat.c:253-349 | The linked list after add_list_pid is exactly the specified one, and the node returned is the specified node; nodes that were in the list stay. |
| `TaskNodes.TaskList.SetPidNonexistent` | pidstat.c:184-190 | Every task is marked nonexistent, nothing else changes. |
| `TaskNodes.TaskList.SfreePid` | pidstat.c:153-174 | Exactly the existing nodes are left, in order, or none if forced. |
| `TaskNodes.TaskList.ReadTaskStats` | pidstat.c:926-960 | The nodes after reading the threads of a task, whatever each read brings. |
| `TaskNodes.TaskList.ReadPid` | pidstat.c:1012-1034 | One visit of a PID: found or added, marked by the outcome, threads read only after success. |
| `TaskNodes.TaskList.SampleAll` | pidstat.c:998-1034 | A whole sample over /proc equals the specified mark, scan and sweep; if it keeps the list in order it leaves exactly the leaders and threads that were last read successfully. |
| `TaskNodes.TaskList.SampleListed` | pidstat.c:1037-1066 | With PIDs given on the command line: the scan over the list that grows under its own cursor ends, and visits every leader of the old list once, in order; if the list stays in order, p is a leader afterwards exactly if it was one and its read succeeded, and t is a thread of p exactly if moreover threads are wanted and the last entry of t succeeded. |
| `TaskNodes.TaskList.MarkExist` | pidstat.c:950-955 | Sets the exist flag of one node, and nothing else. |
| `TaskNodes.TaskList.FindThread` | pidstat.c:300-330 | Where the scan for a thread behind its leader stops. |
| `TaskDisplay.PassShowsAccepted` | pidstat.c:1094-1255 | A display pass over a well-formed list shows exactly the accepted tasks in list order, each in its form, whatever flags earlier passes left behind. |
| `TaskDisplay.AcceptedIff` | pidstat.c:1094-1255 | A leader is judged by what the filters find in its own PID, a thread by what they find in its TID within the group of its leader; with -G a thread needs an accepted leader instead of a match of its own. |
| `TaskDisplay.LineIs` | pidstat.c:378-402 | A thread names its leader exactly if nobody of its group in front of it is accepted. |
| `TaskDisplay.ProcessFilterNeedsLeader` | pidstat.c:1222-1240 | With -G a thread is accepted only if its leader was, and is then shown below it. |
| `TaskDisplay.ProcessFilterNeverNamesLeader` | pidstat.c:378-402 | With -G print_comm never sets the flag of a leader: no task is shown as "(leader)__thread". |
| `TaskDisplay.LeaderNamedAtMostOnce` | pidstat.c:378-402 | The "(leader)__" form appears at most once a group and pass, on a thread of a leader that is not shown. |
| `TaskDisplayPass.GetPidToDisplay` | pidstat.c:1094-1255 | The flag field after the filters is the specified flag set, and the result says whether the task is accepted. |
| `TaskDisplayPass.PrintComm` | pidstat.c:378-402 | The form of the name, and the one flag that may change. |
| `TaskDisplayPass.DisplayPass` | pidstat.c:1661-1703 | The loop over the linked list shows the lines of the specified pass and sets its flags; over existing tasks these are the accepted ones. |
| `Numerals.IocConv` | ioconf.c:91-119 | The loop that writes backwards into 17 bytes ends, never leaves the buffer, and yields the specified numeral, wrap-around of n + 1 included. |
| `Numerals.Ito26RoundTrip` | ioconf.c:126-129 | Decoding the base-26 numeral of n gives n, if and only if n is not 2^32 - 1, whose numeral is empty. |
| `Numerals.Ito26HitsAllStrings` | ioconf.c:126-129 | Every non-empty string of letters whose value is in range is a numeral. |
| `Numerals.Ito26KeepsOrder` | ioconf.c:126-129 | Order on numbers is length-then-alphabetical order on numerals. |
| `Numerals.Ito10RoundTrip` | ioconf.c:121-124 | The decimal numeral of every 32-bit n is the one canonical digit string of value n. |
| `DeviceTable.InvariantStepIff` | ioconf.c:185-336 | Each record keeps the table invariant if and only if it is harmless: its major is new, or nothing that is based on it loses its template. |
| `DeviceTable.UniqueMajorsMakeSoundTable` | ioconf.c:142-369 | After any records with unique majors every entry shares the template of its base major, refnr counts the indirect entries, live entries are their own base; and no null template pointer is used. |
| `DeviceName.SoundTableHasNoNull` | ioconf.c:400-401 | Every entry of a table that unique majors built has a template, so ioc_name may follow it. |
| `DeviceTable.RepeatedMajorStripsFollower` | ioconf.c:296-336 | A file of three records, with one major given twice, whose table is not sound. |
| `DeviceTable.TemplatesAreStable` | ioconf.c:259-294 | A template never changes, but for at most one exception record, ever. |
| `DeviceName.DiskNumberIsExact` | ioconf.c:424-433 | No product or sum of ioc_name exceeds an int; the 32-bit disk number is the exact mixed-radix number. |
| `DeviceName.DiskNumbersIff` | ioconf.c:424-433 | Disk numbers of one template, of any controllers and reference counts that stay small, are equal if and only if the disks have one place in one block. |
| `DeviceName.NamesIff` | ioconf.c:424-449 | Without an explicit controller, names of one template are equal if and only if disk number and partition number are, in 32 bits and for any records; decimal numerals need something that is no digit in the partition prefix, letters need nothing. |
| `DeviceName.PlainNamesIff` | ioconf.c:424-449 | Where nothing wraps around: if and only if block, disk in it and partition are equal, whatever the two reference counts. |
| `DeviceName.SiblingNamesIff` | ioconf.c:386-450 | The same for ioc_name on any two majors that share a template in a sound table, leaving out "nodev" and the exception: the exact condition for equal names. |
| `DeviceName.SiblingsWithSmallMinors` | ioconf.c:386-450 | So for minors below 256 majors that share a template have distinct names if their controller numbers differ. |
| `DeviceName.FamilyNamesAreDistinct` | ioconf.c:386-450 | And majors with one base major, with controller numbers of their own up to its reference count, have distinct names for all minors. |
| `DeviceName.NestedMajorsShareNames` | ioconf.c:205-231 | An indirect record that refers to an indirect one makes majors that share a template and have different base majors: four records, a sound table, and two devices with one name. |
| `DeviceName.UnseparatedNamesCoincide` | ioconf.c:439-448 | With decimal numerals and an empty partition prefix, minors 17 and 176 of a major have one name. |
| `DeviceName.ExplicitControllersIff` | ioconf.c:424-449 | With an explicit controller number that can be told from what follows it, names of one template are equal if and only if controller, disk index and partition index are. |
| `DeviceName.ExplicitControllersCoincide` | ioconf.c:424-449 | Where it cannot, disk 11 of controller 1 is named like disk 1 of controller 11. |
| `DeviceName.ExplicitNamesIff` | ioconf.c:431-449 | With an explicit controller number, two minors of a major have one name if and only if they agree in the disk index and the partition index. |
| `DeviceName.ExplicitNamesOfSmallMinors` | ioconf.c:431-449 | So names are distinct for minors below 256. |
| `DeviceName.ExplicitControllerRepeatsNames` | ioconf.c:431-433 | And minors 256 * pcount apart share a name: base is not added. |
| `DeviceNaming.DeviceNamer.IocInit` | ioconf.c:142-369 | The arrays and shared objects after the loop hold the specified table; unique majors make it sound. |
| `DeviceNaming.DeviceNamer.AddShort` | ioconf.c:188-231 | An indirect record, in the order of the program: the slot is replaced before its referent is followed. |
| `DeviceNaming.DeviceNamer.AddException` | ioconf.c:259-294 | An exception decorates the shared template once; it fails only at a null template. |
| `DeviceNaming.DeviceNamer.AddDirect` | ioconf.c:237-336 | A direct record: a new template with its cooked formats, and a live entry that is its own base. |
| `DeviceNaming.DeviceNamer.AddRecord` | ioconf.c:185-336 | Which kind of record a line is, by the tests of the program. |
| `DeviceNaming.DeviceNamer.MakeName` | ioconf.c:424-449 | base and offset, computed step by step in 32 bits, give the specified disk number and text. |
| `DeviceNaming.DeviceNamer.IocName` | ioconf.c:386-450 | ioc_name on the arrays and pointers returns the specified name. |
| `DeviceRecords.MajorLeads` | ioconf.c:185-336 | After a file with unique majors a major is set exactly if its records lead to a direct record, and its template is the one made for that record. |
| `DeviceRecords.TemplateOfRecord` | ioconf.c:301-328 | That template has the fields of the record: its name, followed by the controller format unless that starts with an asterisk, and the disk and partition formats. |
| `DeviceRecords.EntryOfRecord` | ioconf.c:205-336 | The entry of a major has the controller number of the record that set it, and its base major. |
| `DeviceRecords.CountOfMajor` | ioconf.c:225 | The reference count of a major is the number of indirect records that refer to it. |
| `DeviceRecords.ExceptionOfRecord` | ioconf.c:259-294 | A template has the exception of the first exception record whose major leads to it, and none if there is no such record. |
| `DeviceRecords.NameOfMajor` | ioconf.c:386-450 | What ioc_name returns for every minor of every major of such a file, from the fields of the records: "nodev" out of range, the name of the exception record, or the name put together from the direct record, the controller number and the number of followers. |
| `DeviceRecords.NameOfDirect` | ioconf.c:386-450 | For a minor below 256 of a direct record that is in range and no exception, in full: name, controller format and number, disk prefix, numeral of the disk, partition prefix and number. |
| `DeviceRecords.NameOfNoMajor` | ioconf.c:400-409 | Majors that no record sets have the name "nodev". |
| `DeviceRecords.PrintedIs` | ioconf.c:439 | How a controller number is printed, a large one as a negative number. |
| `CpuStats.SumOfIsExact` | mpstat.c:419-431 | A 64-bit sum is the exact sum modulo 2^64. |
| `CpuStats.SumIsFieldwise` | mpstat.c:419-431 | Each field of a sum of samples is the exact sum of that field, modulo 2^64. |
| `CpuStats.IntervalIsStable` | rd_stats.c:604-672 | Asking for an interval again corrects nothing more and gives the same number. |
| `CpuStats.IntervalIsElapsed` | rd_stats.c:604-672 | The interval of a CPU whose counters ascend is the difference of its two totals, modulo 2^64, and nothing of its reference is corrected. |
| `CpuStats.StandstillHasNoInterval` | rd_stats.c:604-672 | A CPU that stands still has interval zero and keeps its reference. |
| `CpuStats.IntervalCounts` | rd_stats.c:604-672 | What an interval counts, counter by counter: what went back counts nothing, idle and iowait count from zero after a restart, and user and nice count at least their guest time. |
| `CpuStats.CorrectedParts` | rd_stats.c:640-659 | What becomes of idle and iowait of the reference, in the cases of a restart, of an overflow and of an inaccurate iowait. |
| `CpuStats.TotalIs` | mpstat.c:537-549 | The number that tells an offline CPU is the sum of its eight counters of jiffies, modulo 2^64. |
| `CpuSampler.CarriedIsLastNonZero` | mpstat.c:540-575 | One more reading, with offline CPUs carried forward, turns last non-zero readings into last non-zero readings. |
| `CpuSampler.ShownIntervalsAddUp` | mpstat.c:522-601 | The interval of CPU "all" is the sum of the intervals of the CPUs that are shown. |
| `CpuSampler.StableAnswers` | mpstat.c:677-684 | After get_global_cpu_mpstats each shown CPU gives, when asked again, the interval that was added to "all". |
| `CpuSampler.Sampler.GetGlobalCpuStats` | mpstat.c:507-602 | Both samples afterwards: CPU "all" is the sum of the CPUs not skipped, the result the sum of their intervals, offline CPUs hold their previous counters; and a bit of the bitmap is added exactly for a CPU whose eight counters of jiffies sum to zero in the current sample, or in its reference unless statistics are since boot. |
| `CpuSampler.Sampler.WriteStats` | mpstat.c:1661-1695 | The report shows CPU "all" and exactly the CPUs that are not offline, among those selected, with those intervals. |
| `CpuSampler.Sampler.RwLoop` | mpstat.c:2028-2152 | Over any run, on several CPUs each holds its last reading that is not zero after every report, whatever corrections reports made to their references; slot 2 is still the first sample when the average starts. Each report shows the intervals between a reading and the last readings that are not zero. |
| `CpuRuns.RunShows` | mpstat.c:2028-2122 | Report t of a run shows a CPU exactly if it is selected, has a line that is not zero in reading t and had one before, with the interval from the last of those lines to this one; and CPU "all" exactly if that is selected. |
| `CpuRuns.AverageShows` | mpstat.c:2124-2152 | The average shows a CPU exactly if it is selected and had a line in the first reading, with the interval from there to its last line. |
| `CpuRuns.OneCpuShows` | mpstat.c:518-530 | With one CPU each report compares the lines of two successive readings. |
| `CpuRuns.AllIsSumOfShown` | mpstat.c:522-601 | With all CPUs selected, the interval of CPU "all" is the sum of the intervals that the report shows, modulo 2^64. |
| `NodeStats.GetNodePlacement` | mpstat.c:301-349 | cpu2node holds the node of each CPU up to the first one that is missing or out of range, and -1 from there on; cpu_per_node[n + 1] counts exactly the CPUs placed in n, even where the scan gives up; the result is the highest node, or -1. |
| `NodeStats.SetNodeCpuStats` | mpstat.c:445-485 | The node arrays of both samples: each entry is the sum of its CPUs that have a reference. |
| `NodeStats.NodeCounter` | mpstat.c:445-485 | Each counter of entry k is the exact sum of that counter over the CPUs of node k - 1 whose reference has jiffies, or over all of them since boot, modulo 2^64; entry 0 starts from CPU "all". |
| `NodeStats.NodesAddUp` | mpstat.c:445-601 | Conservation: the nodes and the lost CPUs add up to CPU "all", for either sample. |
| `NodeStats.NodesMakeAllIff` | mpstat.c:445-601 | The nodes alone make CPU "all" if and only if what the lost CPUs hold adds up to zero; they do if every CPU has a node and none loses its reference. |
| `NodeStats.VanishedReferenceIsLost` | rd_stats.c:620-645 | A reference can vanish between the two functions: its idle counter was all it had, and is set to zero. |
| `NodeStats.LostCpuIsMissing` | mpstat.c:468-481 | CPU "all" then has counters that no node has. |
| `NodeStats.UnplacedCpuCountsTwice` | mpstat.c:458-483 | A single CPU without a node that node "all" counts twice. |
| `NodeStats.NodeAllIff` | mpstat.c:458-483 | Node "all" is CPU "all" if and only if the CPUs without a node add up to zero: the loop counts those twice, against the comment at line 458. |
| `NodeStats.ReportNodes` | mpstat.c:1661-1695 | The two functions one after the other: what the node arrays hold, on any number of CPUs, and with several CPUs that both samples are conserved. |
| `NodeStats.RecalculateInterval` | mpstat.c:943-960 | The loop of a node: its interval, and the references it corrects. |
| `NodeStats.NodeIntervalIsExact` | mpstat.c:943-960 | That interval is the exact sum of the intervals of the CPUs of the node that have a reference, modulo 2^64. |
| `NodeStats.NodeIntervalsAddUp` | mpstat.c:943-960 | The intervals of the nodes and those of the lost CPUs add up to the interval of CPU "all". |
| `NodeStats.RecalculatingChangesNothing` | mpstat.c:943-960 | Within a report these corrections change nothing. |
| `Interrupts.FwdIrqValues` | mpstat.c:262-282 | Cells and totals of the range become the previous ones, all others stay. |
| `Interrupts.ReadInterruptsStat` | mpstat.c:1828-1932 | Names, cells and totals for any file, in any header order: what is parsed, forwarded, reset or left alone. |
| `Interrupts.CoverIff` | mpstat.c:1848-1876 | The header loop treats each CPU exactly once, as online or in one forwarded range, if and only if the header is strictly ascending. |
| `Interrupts.TotalsRestartIff` | mpstat.c:1858-1868 | With distinct CPUs in the header, the total of each of them restarts from zero if and only if the header is ascending. |
| `Interrupts.DescendingHeaderForwardsOnlineCpu` | mpstat.c:1858-1876 | A header of two CPUs, the larger one first, whose total keeps its previous value. |
| `InterruptRuns.ReadRun` | mpstat.c:1990-2122 | The readings of a run over two alternating buffers, for any files: the cells and totals of the last buffer. |
| `InterruptRuns.RunKeepsLastRead` | mpstat.c:1864-1932 | After any run with ascending headers, each cell and each total is the one that was read last while its CPU was online. |
| `InterruptRuns.RunShowsLastColumn` | mpstat.c:1864-1932 | In numbers: for the last reading that had a column for the CPU, the cell is the number in that column in 32 bits, and the total is the sum of the column, modulo 2^64; both are zero for a CPU that was never online. |
| `Interrupts.OnlineCpu` | mpstat.c:1879-1918 | A CPU of an ascending header: its cells are the numbers of its column in 32 bits, zero where a row ends early, and its total is the exact sum of these over the rows, modulo 2^64. |
| `Interrupts.OfflineCpu` | mpstat.c:1864-1876 | A CPU that is not in an ascending header: all its cells and its total are those of the previous sample. |
| `InterruptTables.ReadIs` | mpstat.c:1845-1916 | What is taken from the file: the CPUs of the first line that names one, and as rows the lines with a colon below it, in order. |
| `InterruptTables.CellOfLine` | mpstat.c:1845-1916 | So number j of such a line ends up in the cell of the CPU that is number j of an ascending header. |
| `IrqLookup.ShowIrqs` | mpstat.c:1436-1481 | The nested loops show the specified pairs, up to the first empty name: the current cell of that CPU, and its previous cell in the row that is taken, which is the same row since boot or under the same name, else the first with the name; or zero. |
| `IrqLookup.ShownIsKeyed` | mpstat.c:1439-1481 | In an interval, with unique names, each row shown uses the previous value of its name, or 0: lookup in a map. |
| `IrqLookup.NoOriginIff` | mpstat.c:1452-1481 | A row has no previous row if and only if its name is new; else the row taken has its name. |
| `IrqLookup.RowsMayMove` | mpstat.c:1452-1462 | Any permutation of the previous rows shows the same. |
| `IrqLookup.OtherRowsDoNotMatter` | mpstat.c:1452-1481 | Nor do rows that appear or disappear elsewhere. |
| `IrqLookup.EveryRowIsFoundIff` | mpstat.c:1452-1462 | Every named row is found again, wherever it is looked for, if and only if the names are unique. |
| `IrqLookup.RepeatedNamesMislead` | mpstat.c:1453-1461 | With repeated names a moved row gets the value of another one. |
| `CpuStats.Corrected` | rd_stats.c:604-672 | The interval function changes nothing of the reference but idle and iowait. |
| `CpuSampler.Sampler.ReadStatCpu` | rd_stats.c:179-267 | The buffer after a reading: online CPUs as read, the others zero. |
| `CpuSampler.Sampler.GlobalTurn` | mpstat.c:522-600 | One CPU in get_global_cpu_mpstats: both its entries and its bit. |
| `CpuSampler.Sampler.SumFirst` | mpstat.c:1955-1985 | On SMP machines the first CPU "all" is the sum of the CPUs. |
| `CpuSampler.Sampler.ShowCpus` | mpstat.c:640-700 | The CPUs shown and their intervals, asked for again; references that are already corrected stay as they are. |
| `CpuSampler.Sampler.NextSample` | mpstat.c:2056-2122 | One more sample on the other buffer, and its report. |
| `CpuSampler.Sampler.Run` | mpstat.c:2028-2152 | All reports of a run, and the average if an interval has passed, from the readings alone, on one CPU or several. |
| `CpuSampler.Sampler.TurnsDone` | mpstat.c:522-601 | After the loop: CPU "all", the carried CPUs and the corrected references. |
| `NodeStats.SameIntervals` | mpstat.c:957 | Each counted CPU answers with the interval that was added to "all". |
| `Interrupts.ReadHeader` | mpstat.c:1848-1876 | The online CPUs and the state of all cells and totals below the header. |
| `Interrupts.ReadRow` | mpstat.c:1883-1914 | One row: its name, the cells of the online CPUs, and their totals. |
| `Interrupts.ReadRows` | mpstat.c:1879-1916 | The rows, up to as many as there are interrupts. |
| `IrqLookup.FindName` | mpstat.c:1453-1461 | The first row with a name, or the number of rows. |
| `Bitmaps.SetBit` | common.h:215-221 | Setting one bit of a bitmap changes no other. |
| `Bitmaps.BitIs` | common.h:215-221 | Bit n is bit n mod 8, from the lowest, of byte n / 8. |
| `DeviceStats.NarrowCounter` | iostat.c:1728-1747 | For a 32-bit counter the sectors of an interval are the true count modulo 2^32, so right if and only if that is below 2^32. |
| `DeviceStats.WideCounterIff` | iostat.c:1728-1747 | For a 64-bit counter they are right if and only if the count is below 2^64 and the counter did not wrap from a value that looks like 32 bits. |
| `DeviceStats.SmallWrapIsMisread` | iostat.c:1728-1747 | A 64-bit counter that wraps from 5 to 2. |
| `DeviceStats.SumIsFieldwise` | iostat.c:917-933 | Each of the 17 counters of a group is the exact sum of its members, modulo its own width. |
| `GroupPass.OrderIsRanked` | iostat.c:1821-1853 | The order D0, D1, G1, D2, G2... holds each device exactly once, at a place given by a formula. |
| `GroupPass.GroupBehindMembers` | iostat.c:1821-1853 | A group comes behind all its members and in front of whatever follows them. |
| `GroupPass.GroupShowsItsMembers` | iostat.c:1856-1865 | At its turn a group has counted its existing members, and each of its counters is the sum over those that pass the activity filter. |
| `GroupPass.OnlyMembersMatter` | iostat.c:1856-1865 | Devices outside a group do not influence it. |
| `GroupPass.BusyGroupIsHidden` | iostat.c:1846-1876 | A group with a busy member has a line in the first part of a report and none in the others. |
| `DeviceReport.ComputeDeviceGroupsStats` | iostat.c:908-934 | Adds a device that passes the filter to its group, in place. |
| `DeviceReport.Choose` | iostat.c:1823-1853 | The head of the loop: whose turn it is, which group is pending, where the loop goes on. |
| `DeviceReport.TakeTurn` | iostat.c:1855-1945 | The rest of the loop body: what the pending group gains, and the line that is written, with the same reference. |
| `DeviceReport.Write` | iostat.c:1870-1898 | A line is written exactly if the filter or some counted operation lets it pass and, with idle devices omitted, some count of operations has changed; the reference is the previous sample if the operations did not go down or some sector counter that was not zero did not, else zero. |
| `DeviceReport.WriteStats` | iostat.c:1823-1948 | The loop that swaps the device at hand with the pending group gives each device its turn in that order, shows the specified lines, among them one of each device that is in the report with the stated samples, and leaves each group with the sum and the count of its members and everything else unchanged. |
| `DeviceReport.ReferenceIsLastSum` | iostat.c:1821-1865 | In the next report a group is compared with the sum that it showed in this one. |
| `DeviceLines.LineOfDevice` | iostat.c:1855-1898 | The line of a device that is no group, counter by counter: whether there is one, and its reference. |
| `DeviceLines.LineOfGroup` | iostat.c:1821-1898 | The line of a group: computed from the exact sums of its existing members that pass the filter, its type raised by their number, with the same rule for the reference. |
| `DeviceLines.LineInReport` | iostat.c:1821-1948 | In a report the line of each device stands behind exactly those of the devices that have their turns before it. |
| `Overflow.MulCheckOverflow3Iff` | common.c:463-480 | The exact product comes back if and only if it fits an unsigned int; every other call exits. For size_t of 32 bits and more; no test overflows or divides by zero. |
| `Overflow.MulCheckOverflow4Iff` | common.c:494-513 | The same for four factors. |
| `Escape.EscapeBsChar` | common.c:814-837 | The buffer holds, terminated, the escaped form of the longest prefix that fits 255 characters. |
| `Escape.RoundTrip` | common.c:814-837 | Reading the escapes back gives the string. |
| `ValueSets.ParseValstrIff` | common.c:1736-1753 | A digit string is read as its value, and refused if too large, if and only if it fits an int or does not look like a value after truncation. |
| `ValueSets.LargeNumberPassesForSmall` | common.c:1736-1753 | A number beyond an int that is accepted as CPU 1. |
| `ValueSets.ParseRangeIff` | common.c:1771-1809 | If its numbers fit an int, a token that is not cut (at most 15 characters, or no dash) is accepted as (lo, hi) if and only if it denotes that range. |
| `ValueSets.LongTokenIff` | common.c:1779-1809 | A longer token with a dash is read as what it means, or refused if it means nothing, if and only if the part behind the dash stands for the same upper end with and without what is cut off. |
| `ValueSets.LongRangeIff` | common.c:1779-1809 | So a long range that means something is read right if and only if its dash is in front of the 15th character and its upper end is 0, or the dash is the 15th and the upper end is the largest value. |
| `ValueSets.LongTokenIsCut` | common.c:1779-1789 | A range of 16 characters that denotes fifteen values and selects two. |
| `ValueSets.ParseValues` | common.c:1830-1861 | Success, and the bitmap afterwards, bit by bit: what was set stays set, and exactly the selected bits are added, up to the first token that is refused. For plain tokens: success if and only if each means something, and then exactly the bits that they mean. |
| `ValueSets.ListIff` | common.c:1830-1861 | A list is accepted if and only if each token is the keyword or denotes a range; bit 0 is selected by the keyword, bit i + 1 by a range that holds i. |
| `ValueSets.ParseToken` | common.c:1841-1857 | One token: the bits it sets, or failure. |
| `ValueSets.SelectsIff` | common.c:1841-1857 | A plain token selects what it means. |
| `Tokenizer.Strtok` | common.c:1841 | One call of strtok. |
| `Tokenizer.TokensAreTheList` | common.c:1841 | strtok loses nothing of a list but needless separators. |
| `Tokenizer.TokensAreWords` | common.c:1841 | No token is empty or holds a separator. |
| `FieldCursor.Cursor.Pfield` | raw_stats.c:48-98 | The buffer, the index and the result of each call are as specified on the text at the cursor, wherever in the buffer that is. |
| `FieldCursor.FieldsInOrder` | raw_stats.c:78-97 | A call with a header and calls with NULL return the fields of the section one after the other. |
| `FieldCursor.FieldsAreTheText` | raw_stats.c:78-81 | The fields with semicolons between them are the section. |
| `FieldCursor.StarredFieldIff` | raw_stats.c:82-95 | On a starred field calls return "all" or the stem with the item number less one and leave the cursor alone, if and only if item 0 is asked for by the first call only. |
| `FieldCursor.LoneStarredSectionIff` | raw_stats.c:61-95 | A header whose section is one starred field: "all", whatever the position of the section, and then the items, if and only if none of them is item 0. |
| `FieldCursor.SecondAllIsTheStem` | raw_stats.c:82-97 | Item 0 asked for twice: the second answer is the bare stem. |
| `FieldCursor.FieldsThenItems` | raw_stats.c:48-98 | A header such as that of the interrupts: its plain fields, then the items of the last one. |
| `FieldCursor.Cursor.Load` | raw_stats.c:55-76 | The section of a new header line, its first ampersand replaced; no section if there are not so many. |
| `FieldCursor.StoredIs` | raw_stats.c:68-71 | Only the first ampersand of a section is replaced, by a semicolon. |
| `FieldCursor.ItemNameIs` | raw_stats.c:82-94 | The name of an item other than 0 is the stem followed by the canonical decimal numeral of the item number less one, cut at 511 characters. |
| `FieldCursor.ItemsIff` | raw_stats.c:82-95 | Behind an erased star the cursor stays if and only if no call asks for item 0. |
| `PreviousItem.FindPrevious` | raw_stats.c:535-561 | The search round the previous sample finds a counterpart if and only if there is one, the first on its way, in no more steps than there are items. |
| `PreviousItem.EveryPlaceOnce` | raw_stats.c:1627-1647 | The search looks at each place once. |

## Left out

- Reading and parsing /proc and /sys, directory walks, signals, time, fork and exec: readings, rows, directory entries and outcomes are parameters.
- printf, colours, column widths and rates in floating point: the model says which items are shown, in which order, and from which integer counters.
- Regular expressions and user names in get_pid_to_display: arbitrary predicates of a PID and its group.
- Statistics of a task other than its flags: add_list_pid, the sweep and the display order do not depend on them.
- Allocation failures, which exit.
- TaskGroups.SampleKeepsOrder: sufficient only, and does not cover a number that is reused for another group since the last sample, as process numbers can be; TaskOrder.SampleKeepsOrderIff says exactly which samples keep the order.
- TaskGroups.ListedSampleKeepsOrder: the same.
- TaskGroups.RunKeepsOrder: the same for runs, where TaskOrder.RunKeepsOrderIff is exact.
- TaskOutcomes.SampleIsAsRead: samples that keep the order; where one does not, pointers can dangle and what a thread belongs to is no longer defined.
- TaskDisplay.PassShowsAccepted: the list is one that was swept, so that every task exists.
- DeviceTable: the description field of a record, and disk formats other than 'a', '%' and 'd', for which the program keeps no conversion function.
- DeviceNaming.DeviceNamer.IocName: requires a table without null templates, which ioc_init builds from unique majors, and does not model the fixed length of the name buffer nor a '%' within a configured name.
- DeviceName.FamilyNamesAreDistinct: one base major, and controller numbers up to its reference count; for majors that only share a template see SiblingNamesIff.
- DeviceName.SiblingNamesIff: 1 to 256 disks a major and controller numbers up to 512, so that nothing wraps around in 32 bits; NamesIff is the condition without these bounds.
- DeviceRecords.NameOfMajor: files with unique majors; other files are covered by InvariantStepIff record by record.
- CpuStats.IntervalCounts: guest time within user time and nice time; IntervalIsSum has no such condition.
- CPUs that are added while mpstat runs: cpu_nr is constant, and so are the node placement and the number of interrupts.
- CpuSampler.Sampler.RwLoop: at most 8192 CPUs, as NR_CPUS; that JSON output ends without an average is not modelled.
- Interrupts.ReadInterruptsStat: one reader of one file; that the readers of hard and soft interrupts write the same totals is not modelled, nor is the limit on the length of a line.
- NodeStats: what is printed of a node; only its sums and its interval are modelled.
- DeviceReport.WriteStats: one part of a report; several parts are several calls, with `first` true for the first. The type of a group is never reset, so across reports it grows by the number of members each time.
- GroupPass: names, and the list that add_list_device builds; any list is allowed.
- ValueSets.LongTokenIff: numbers that do not fit an int are left to ParseValstrIff; atoi is that of glibc, a long with its low 32 bits.
- Tokenizer.Strtok: the position is returned instead of kept, and the separator is not overwritten; nobody looks at the string in between.
- FieldCursor.Cursor.Pfield: calls with NULL that would read behind the end of the buffer. The result is a copy, not a pointer into the buffer.
- Overflow: the message in debug mode.
- cifsiostat, the printers of the single activities, the activity tables and the sensors code.
