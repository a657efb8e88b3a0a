# Verified model of the TSCE 4.0 monitoring client, server and modules

TSCE watches the nodes of a cluster. A client loads measuring modules, prints one
comma-separated record per cycle and sends it to a server; the server keeps the
records and answers requests for single positions of them. Some modules hold
arithmetic or a protocol of their own: the RAPL modules read and write packed
power-limit registers and accumulate a wrapping energy counter, the GPU module
runs a handshake between threads. This project models these parts and proves what
they are for.

Check everything with `dafny verify dfyconfig.toml` (Dafny 4.11).

## Modules

| file | models |
|---|---|
| `Common.dfy` | options, distinct sequences, the pigeonhole principle |
| `BitField.dfy` | bit-fields of a word: extract, insert, masks, shifts |
| `TimeWindow.dfy` | RAPL time windows `2^Y * A_F[F] * unit` and the search for the best pair, for any four increasing steps within an octave |
| `PowerLimit.dfy` | the power-limit registers as bit-fields, watts and windows |
| `RaplDevice.dfy` | the registers of a machine and the calls that update them |
| `Topology.dfy` | x2APIC ids and the table of packages |
| `Energy.dfy` | the accumulation of a 32-bit energy counter |
| `Handshake.dfy` | workers and collector of the GPU bandwidth module as a state machine |
| `HandshakeReturn.dfy` | which reads of that module can return |
| `ModList.dfy` | the linked lists of configured modules |
| `MonitorWalk.dfy` | `monitor_data` step by step on values: when it returns, and with what |
| `MonitorList.dfy` | the same on linked lists in the heap |
| `IndexConfig.dfy` | the index configuration file |
| `Strtok.dfy` | `strtok_r` (section 7.24.5.8 of ISO/IEC 9899:2011) and delimiter-separated printing |
| `ClientRecord.dfy` | loading, collecting and printing in the client |
| `ClientAlignment.dfy` | whole client cycles: script slots and positions |
| `ServerReply.dfy` | splitting a record into cells, and the two kinds of reply |
| `NodeBuffer.dfy` | the packets of a node as a linked list, counts over nodes |
| `EndToEnd.dfy` | from the configuration files to the records sent, and from a record to the reply |

Objects the C code updates in place are classes, arrays and linked nodes here,
and every method is proved against a function of the old state; the lemmas are
about these functions. Doubles are exact reals.

## What the proofs say about the code

"Exactly" and "if and only if" are proved in both directions.

- Reading the package register and writing it back changes no bit. It is defined
  exactly when both Y fields are at most 30: with 31 the shift of an int
  overflows, the window reads as negative and cannot be set. Writing other limits
  changes only the fields, and the last write wins (`PkgWriteBackIsIdentity`,
  `PkgReservedBits`, `PkgLastWriteWins`).
- The time window chosen is the best of all 124 pairs, not only of the four
  tried, and more than 13/20 of the request; no better ratio holds
  (`BestPairIsBest`, `WindowRatio`, `WindowRatioIsTight`).
- A window request below the time unit has no encoding: the code then writes
  whatever the two variables held, and a second limit of a package register gets
  the window of the first (`WindowNeverAboveIff`, `ShortWindowExample`).
- The table 1.0, 1.1, 1.2, 1.3 is not the one of section 14.9.3 of the Intel
  SDM, Volume 3B (1, 1.25, 1.5, 1.75). The window that the processor applies is
  longer than the request exactly when the request lies in [1.1, 1.75) of its
  octave (`HardwareWindow`, `HardwareWindowExample`).
- Every CPU keeps its slot in the table of packages exactly when no two CPUs of a
  package fold to the same place. With n cores to a package, core q*n + r of SMT
  id s folds to core r of SMT id s + q, so core ids with gaps can clash
  (`AllCpusKeptIff`, `GapExample`).
- The energy reported misses one counter unit for each wrap, exactly if the
  counter never advances by 2^32 or more between two reads (`EnergyLossIff`,
  `LongStepExample`).
- The handshake is safe in every interleaving if and only if `malloc` left no
  flag behind the fourth at 1 (`memset` clears `sizeof(int)` bytes, not one per
  device) and, given any device, no wait returns without a signal (`SafeIff`).
- Some read can return if and only if there are fewer than 256 devices (the
  counter is an unsigned char) and `malloc` left those flags at 0; then any number
  of reads can. A read in progress can still return if and only if each device is
  copied, ready or being computed, or its woken worker will find the flag at 0. A
  worker that does not wait yet when the broadcast comes is lost for the read, and
  the very first read can hang this way (`SomeReadReturnsIff`, `ReadReturnsIff`,
  `FirstReadCanHang`).
- `monitor_data` returns if and only if no configured name is that of a module
  selected already or of one before the first selected one in the base list; a
  name between the first and the last selected one is skipped silently
  (`MonitorDataReturnsIff`, `AllSelectedIff`, `WrongOrderExample`).
- Script modules share numbered buffers, and still every module is encoded from
  its own script in every cycle, for any mix of modules. A cycle fails exactly
  when a script prints nothing usable or a library claims to be a script, and
  stops the program exactly when an assert of the encoder is violated or a null
  pointer followed (`Cycle`, `Cycles`).
- The server finds a field shifted by what the scripts before it printed beyond
  their configuration, and by what the values before it are cut into beyond one
  token each: an empty value is one too few, a comma inside a value one too many.
  It stands at its configured position exactly when the two shifts cancel out, in
  every record (`FieldOnWire`, `ConfiguredPositionIff`, `ShortScriptExample`,
  `EmptyValueExample`, `CommaValueExample`).
- Only an empty value, or one with a comma, from a native module keeps a record
  from being cut into its fields again (`SplitRecordIff`, `FieldsAreCleanIff`). A
  value of 32 characters or more runs into the next cell (`CellIsWholeIff`,
  `LongTokenExample`).
- A line of the configuration file keeps its words exactly when it ends in a
  blank and no letter r stands before that: the code compares with 'r' where its
  comment speaks of Windows text, and it cuts the last character of a last line
  without newline too (`CutKeepsWordsIff`, `LetterCutExample`, `LastLineExample`).

## Model

| member | source | states |
|---|---|---|
| TimeWindow.FromWindowIsDecoded | TSCE4.0/module/power_gadget.c:599-604 | the product in the code is the step of F doubled Y times, which is what all other results speak about, and its negative for Y = 31, where the shifted int overflows |
| TimeWindow.MultipliersAre | TSCE4.0/module/power_gadget.c:599-604 | for every pair the window is 2^Y times 1 + F/10 in the code and 1 + F/4 in the processor, times the unit |
| TimeWindow.WindowOrder | TSCE4.0/module/power_gadget.c:65-66 | windows are ordered by (Y, F) lexicographically |
| TimeWindow.UniqueEncoding | TSCE4.0/module/power_gadget.c:599-604 | no two pairs denote the same window |
| TimeWindow.BestPairBrackets | TSCE4.0/module/power_gadget.c:619-639 | the result and the next larger encodable window enclose the request |
| TimeWindow.BestPairIsBest | TSCE4.0/module/power_gadget.c:619-639 | for every request in [unit, 2^31 unit) the result is not above it and no encodable window lies between, among all Y up to 30 and all F |
| TimeWindow.BestIsUnique | TSCE4.0/module/power_gadget.c:619-639 | there is only one best pair |
| TimeWindow.CandidateIsLargest | TSCE4.0/module/power_gadget.c:612-617 | the truncated logarithm gives, for one F, the largest window not above the request |
| TimeWindow.CandidatesSuffice | TSCE4.0/module/power_gadget.c:629-638 | the best of the four candidates is the best of all pairs |
| TimeWindow.ConvertToLimitTimeWindow | TSCE4.0/module/power_gadget.c:619-639 | the loop computes the best pair, and leaves both variables alone for a request below the unit |
| TimeWindow.RoundTrip | TSCE4.0/module/power_gadget.c:599-639 | encoding a decoded pair gives the same pair, for all Y up to 30 |
| TimeWindow.DecodedInRangeIff | TSCE4.0/module/power_gadget.c:599-617 | a decoded window can be encoded again exactly when Y did not overflow |
| TimeWindow.WindowRatio | TSCE4.0/module/power_gadget.c:606-639 | the chosen window is more than 13/20 of the request and not above it |
| TimeWindow.WindowRatioIsTight | TSCE4.0/module/power_gadget.c:65-65 | for every larger ratio some request falls short of it |
| TimeWindow.HardwareWindow | TSCE4.0/module/power_gadget.c:65-65 | with the SDM's multipliers the written pair exceeds a request of octave y exactly on [1.1, 1.75) of that octave |
| TimeWindow.HardwareWindowExample | TSCE4.0/module/power_gadget.c:65-65 | a request of 1.5 time units is such a request |
| BitField.ExtractIs | TSCE4.0/module/msr.h:53-62 | a field at bit lo of width w is the word divided by 2^lo, modulo 2^w |
| PowerLimit.StorableIff | TSCE4.0/module/power_gadget.c:606-610 | the powers that convert are those whose quotient lies between -1 and 2^64 |
| PowerLimit.StoredWatts | TSCE4.0/module/power_gadget.c:606-610 | the stored power is the request rounded down to units exactly when it is not negative and fits 15 bits |
| PowerLimit.SetLimitReads | TSCE4.0/module/msr.h:53-62 | each field of a written limit reads back as written, cut to its width |
| PowerLimit.SetLimitFrame | TSCE4.0/module/msr.h:53-62 | writing a limit changes nothing outside its 24 bits |
| PowerLimit.LimitRoundTrip | TSCE4.0/module/power_gadget.c:666-695 | a limit decoded from a register encodes to the same five fields |
| PowerLimit.FirstLimitBits | TSCE4.0/module/msr.h:53-62 | the first limit in the bits 0-23 of a register: watts, flags, Y and F |
| PowerLimit.SecondLimitBits | TSCE4.0/module/msr.h:106-120 | the second limit in the bits 32-55 |
| PowerLimit.PkgBits | TSCE4.0/module/power_gadget.c:893-925 | a package register decodes to the limits from bits 0 and 32 on and the lock at bit 63 |
| PowerLimit.DomainBits | TSCE4.0/module/power_gadget.c:666-695 | a single-limit register decodes to the limit from bit 0 on and the lock at bit 31 |
| PowerLimit.ReadIsSettableIff | TSCE4.0/module/power_gadget.c:599-617 | a limit that was read can be set exactly when its Y field is at most 30 |
| PowerLimit.PkgWriteBackIsIdentity | TSCE4.0/module/power_gadget.c:893-1027 | get, then set, is defined exactly when both Y fields are at most 30 and then leaves the whole package register unchanged |
| PowerLimit.PkgReservedBits | TSCE4.0/module/msr.h:106-120 | any set keeps 64 bits and every bit that is no field |
| PowerLimit.PkgSetReads | TSCE4.0/module/power_gadget.c:985-1027 | every field after a set is the one requested for it, none swapped or overwritten |
| PowerLimit.PkgSetBits | TSCE4.0/module/power_gadget.c:985-1027 | after a set, bits 0-14, 15, 16, 17-21, 22-23, 32-46, 47, 48, 49-53, 54-55 and 63 are the fields requested and bits 24-31 and 56-62 are unchanged |
| PowerLimit.DomainSetBits | TSCE4.0/module/power_gadget.c:804-840 | the same for a single-limit register, with the lock at bit 31 and bits 24-30 unchanged |
| PowerLimit.PkgSetThenGet | TSCE4.0/module/power_gadget.c:893-1027 | set, then get: low bit of the flags, power within one unit exactly when it fits, the best window |
| PowerLimit.PkgLastWriteWins | TSCE4.0/module/power_gadget.c:985-1027 | after a second set no bit shows what the first one wrote |
| PowerLimit.WindowNeverAboveIff | TSCE4.0/module/power_gadget.c:985-1027 | a window read back is not above the request exactly when the request is at least the time unit, or the leftover Y is 31 and reads as negative; a second one that is too short equals the first |
| PowerLimit.ShortWindowExample | TSCE4.0/module/power_gadget.c:629-638 | a request of 0.9 units is read back longer |
| PowerLimit.DomainWriteBackIsIdentity | TSCE4.0/module/power_gadget.c:666-695 | get, then set, is defined exactly when Y is at most 30 and then leaves a single-limit register unchanged |
| PowerLimit.DomainSetThenGet | TSCE4.0/module/power_gadget.c:804-840 | set, then get, for a single-limit register; all other bits stay |
| RaplDevice.Device.GetPkgPowerLimit | TSCE4.0/module/power_gadget.c:893-925 | reads register 0x610 of the CPU of the node; fails exactly when it is unsupported or unreadable, and then leaves the object alone |
| RaplDevice.Device.SetPkgPowerLimit | TSCE4.0/module/power_gadget.c:985-1027 | changes register 0x610 of the CPU of the node and no other; on failure none |
| RaplDevice.Device.GetPowerLimit | TSCE4.0/module/power_gadget.c:666-695 | the same for a single-limit register |
| RaplDevice.Device.SetPowerLimit | TSCE4.0/module/power_gadget.c:804-840 | the same for a single-limit register |
| RaplDevice.UnitsOf | TSCE4.0/module/power_gadget.c:641-662 | the units of every unit register are positive fractions and meet what the results on limits ask of them |
| RaplDevice.UnitFractionIs | TSCE4.0/module/power_gadget.c:657-659 | a unit times its power of two is 1 |
| RaplDevice.MakeDevice | TSCE4.0/module/power_gadget.c:1359-1374 | a machine is given the units of its unit register, and they are those the results on limits ask for |
| RaplDevice.UnitsDecode | TSCE4.0/module/power_gadget.c:599-604 | with the machine's time unit a register decodes as the product in the code, for all 128 pairs |
| RaplDevice.PkgSetThenGetIsClose | TSCE4.0/module/power_gadget.c:893-1027 | with the code's table: flags unchanged, power less than one unit below, more than 13/20 of the window |
| RaplDevice.DomainSetThenGetIsClose | TSCE4.0/module/power_gadget.c:804-840 | with the code's table, for a single-limit register: flags unchanged, power less than one unit below, more than 13/20 of the window |
| RaplDevice.SetThenGetPkg | TSCE4.0/module/power_gadget.c:893-1027 | on one machine with the units MakeDevice gives it, package limits that are set are read back that close, exactly when the register can be read and written |
| RaplDevice.SetThenGet | TSCE4.0/module/power_gadget.c:666-840 | the same for a single-limit register |
| Topology.ParsedFields | TSCE4.0/module/power_gadget.c:234-250 | the three masks and shifts cut out adjacent bit-fields of the id |
| Topology.PartsMakeTheId | TSCE4.0/module/power_gadget.c:234-250 | the id is pkg*2^core_w + core*2^smt_w + smt with each part in its range |
| Topology.TriplesAreInjective | TSCE4.0/module/power_gadget.c:234-250 | equal triples come from equal ids, whatever the two widths |
| Topology.CountsAre | TSCE4.0/module/power_gadget.c:279-292 | the thread counts are the low 16 bits of what the CPU asked last reported, and cores times threads per core is the largest multiple within the package count |
| Topology.NodesAre | TSCE4.0/module/power_gadget.c:282-293 | the number of nodes is one more than the largest package id that occurs |
| Topology.Machine.BuildTopology | TSCE4.0/module/power_gadget.c:256-314 | both maps, the counts in terms of the last CPU's registers, the last placement in every slot, or that some placement falls outside its row; of all results of moving between CPUs only the last is returned |
| Topology.SlotBound | TSCE4.0/module/power_gadget.c:303-303 | the computed index stays inside the row |
| Topology.InBoundsIff | TSCE4.0/module/power_gadget.c:300-305 | on a machine with complete cores the indexes stay inside exactly when core ids are below the number of cores |
| Topology.PlacedIff | TSCE4.0/module/power_gadget.c:300-305 | a slot is filled exactly when some CPU computes its index, and holds such a CPU |
| Topology.EveryCpuPlaced | TSCE4.0/module/power_gadget.c:300-305 | no placement overwrites another |
| Topology.NoOverwriteIff | TSCE4.0/module/power_gadget.c:300-305 | no placement overwrites another exactly when no two CPUs of a package fold to the same place |
| Topology.AllCpusKeptIff | TSCE4.0/module/power_gadget.c:269-305 | the same for the CPUs of any machine, gaps in the ids or not |
| Topology.GapExample | TSCE4.0/module/power_gadget.c:303-304 | with n cores per package, a core numbered n overwrites the second thread of core 0 |
| Topology.DistinctApicIds | TSCE4.0/module/power_gadget.c:269-290 | distinct x2APIC ids give distinct placements |
| Topology.FullMachineFillsAllSlots | TSCE4.0/module/power_gadget.c:300-305 | with as many CPUs as slots no slot is empty |
| Topology.FirstSlotIff | TSCE4.0/module/power_gadget.c:557-561 | the slot pkg_node_to_cpu reads is filled exactly when the first thread of core 0 is online |
| Topology.TableIsComplete | TSCE4.0/module/power_gadget.c:292-305 | in the final table every CPU stands in its own slot and in no other; on a full machine slot 0 of every package holds the first thread of its core 0 |
| Topology.BuildFullMachine | TSCE4.0/module/power_gadget.c:256-314 | from distinct x2APIC ids, counts and contiguous ids of a full machine: pkg_node_to_cpu names the first thread of core 0 of the package it is asked for |
| Energy.DeltaNotNegative | TSCE4.0/module/t_rapl.c:889-894 | no accounted difference is negative |
| Energy.StepLoss | TSCE4.0/module/t_rapl.c:889-905 | one step loses one unit per wrap, or more exactly when the counter advanced by 2^32 or beyond |
| Energy.ClosedFormIff | TSCE4.0/module/t_rapl.c:885-909 | over any run the accumulated units have the closed form exactly when all steps are short |
| Energy.LossFromFirstReading | TSCE4.0/module/t_rapl.c:885-909 | the loss is (r0 + used) div 2^32 |
| Energy.DeltaIsUnits | TSCE4.0/module/t_rapl.c:588-588 | the correction in joules is the correction by 2^32 - 1 units |
| Energy.EnergyLossIff | TSCE4.0/module/t_rapl.c:885-909 | the joules reported are the energy unit times the counter units used, less one unit per wrap, exactly when all steps are short |
| Energy.OneJouleExample | TSCE4.0/module/t_rapl.c:889-905 | 65536 units of 1/65536 J are one joule |
| Energy.LongStepExample | TSCE4.0/module/t_rapl.c:889-894 | an advance of 2^32 between two reads is accounted as nothing |
| Energy.Reader.Init | TSCE4.0/module/t_rapl.c:941-958 | first readings of every supported domain, nothing else |
| Energy.Reader.Read | TSCE4.0/module/t_rapl.c:881-912 | every supported domain of every node accounted once, all others unchanged, whatever the clock says |
| Energy.Collect | TSCE4.0/module/t_rapl.c:885-958 | after the initial reading and any number of reads, every supported domain reports its own energy, exactly to the unit per wrap when its steps are short, and the others report nothing |
| Handshake.RunKeepsInv | TSCE4.0/module/t_gpu_mem_copy.c:27-123 | every step of every thread keeps the invariant |
| Handshake.SafeRuns | TSCE4.0/module/t_gpu_mem_copy.c:96-123 | in every interleaving a returning read has copied each device exactly once, with values computed after its broadcast, and no record is written while it is copied |
| Handshake.StaleFlagFails | TSCE4.0/module/t_gpu_mem_copy.c:98-98 | a flag beyond the fourth left at 1 leads to a read of stale data |
| Handshake.SpuriousWakeupFails | TSCE4.0/module/t_gpu_mem_copy.c:32-39 | one wakeup without a signal leads to a read of data from before the broadcast |
| Handshake.SafeIff | TSCE4.0/module/t_gpu_mem_copy.c:27-123 | the exact condition under which all runs are safe |
| HandshakeReturn.ReadReturnsIff | TSCE4.0/module/t_gpu_mem_copy.c:104-122 | the exact condition under which a read in progress can still return |
| HandshakeReturn.SomeReadReturnsIff | TSCE4.0/module/t_gpu_mem_copy.c:96-123 | from the start, some read can return exactly when there are fewer than 256 devices and the flags behind the fourth are 0; then any number of reads can |
| HandshakeReturn.ReturnCollectsAll | TSCE4.0/module/t_gpu_mem_copy.c:96-123 | a read that returns has copied every device once, five fields each, calculated after the last broadcast of the run |
| HandshakeReturn.FirstReadCanHang | TSCE4.0/module/t_gpu_mem_copy.c:27-42 | a read whose broadcast comes before the workers wait never returns |
| MonitorWalk.AllSelectedIff | TSCE4.0/src/clr/clr_config.c:491-525 | all configured names that occur are selected, in configured order, exactly when that is base order |
| MonitorWalk.Hangs | TSCE4.0/src/clr/clr_config.c:506-514 | a repeated name, or one before the first selected node, closes a cycle the walk never leaves |
| MonitorWalk.MonitorDataReturnsIff | TSCE4.0/src/clr/clr_config.c:491-525 | the loops end if and only if a plan exists, and then with the planned selection |
| MonitorWalk.WrongOrderExample | TSCE4.0/src/clr/clr_config.c:491-525 | two names against the base order: the loops never end |
| MonitorList.Monitors.Add | TSCE4.0/src/clr/clr_config.c:303-328 | appends one name to the linked list and counts it |
| MonitorList.Pass | TSCE4.0/src/clr/clr_config.c:505-514 | one walk over the list that is being relinked selects what the plan says |
| MonitorList.MonitorData | TSCE4.0/src/clr/clr_config.c:491-525 | the monitored list is exactly the selected nodes, in order, null-terminated; the base list is its prefix through the first selected node and then the other selected ones |
| IndexConfig.CutKeepsWordsIff | TSCE4.0/src/_con/con_config.c:250-254 | any line keeps its words exactly when its last character is a blank and no r stands before it |
| IndexConfig.LetterCutExample | TSCE4.0/src/_con/con_config.c:252-254 | the line ar and a newline is read as a |
| IndexConfig.LastLineExample | TSCE4.0/src/_con/con_config.c:250-250 | a last line ab without newline is read as a |
| IndexConfig.SkippedIff | TSCE4.0/src/_con/con_config.c:256-259 | a line is skipped exactly when it is blank or its first character that is no blank is a number sign |
| IndexConfig.SkipAddsNothing | TSCE4.0/src/_con/con_config.c:256-259 | such a line adds no module and is no fault |
| IndexConfig.BlanksAre | TSCE4.0/src/_con/con_config.h:19-19 | the six blanks |
| IndexConfig.FitsIff | TSCE4.0/src/_con/con_config.h:25-39 | words fit exactly when names have at most 31 characters, units and types at most 15, and there are at most 64 indexes |
| IndexConfig.TooLongIff | TSCE4.0/src/_con/con_config.c:244-248 | a line is too long exactly when 10239 characters of it bring no newline |
| IndexConfig.ParsedKeepsWords | TSCE4.0/src/_con/con_config.c:148-188 | an accepted line has 1+3k words and none is lost or reordered |
| IndexConfig.AnalyseLineIndex | TSCE4.0/src/_con/con_config.c:148-188 | accepts a line exactly when it has one word and three for each index and each word fits its field; tells a malformed line from a word that does not fit |
| IndexConfig.CheckModInfo | TSCE4.0/src/_con/con_config.c:190-216 | accepts exactly the modules that share neither name nor an index name with an earlier one |
| ModList.AppendMod | TSCE4.0/src/_con/con_config.c:283-284 | the new node is the last one of the linked list, all others keep their places |
| IndexConfig.AddLine | TSCE4.0/src/_con/con_config.c:268-284 | a line is appended exactly when the list stays consistent |
| IndexConfig.AnalyseIndexInfoConfig | TSCE4.0/src/_con/con_config.c:221-289 | succeeds exactly when every line is acceptable and all modules are consistent, and overruns a field exactly when a word that does not fit comes before any error; the linked list keeps file order, and holds a consistent prefix after an error |
| IndexConfig.AcceptedNamesFit | TSCE4.0/src/_con/con_config.h:35-39 | the modules of a file have names shorter than their fields, so that the client cuts none |
| Strtok.Scanner.Next | TSCE4.0/src/svr/buffer.c:223-229 | repeated calls deliver the maximal delimiter-free runs |
| Strtok.TokensAreSolid | TSCE4.0/src/svr/buffer.c:223-229 | splitting loses and reorders nothing but delimiters |
| Strtok.TokensAcross | TSCE4.0/src/svr/buffer.c:223-229 | no token reaches across a delimiter |
| Strtok.SplitPrinted | TSCE4.0/src/svr/buffer.c:213-232 | splitting a printed list cuts every field by itself, whatever the fields are |
| Strtok.SplitRecoversIff | TSCE4.0/src/svr/buffer.c:213-232 | splitting a printed list gives it back exactly when no field is empty or contains the delimiter |
| Strtok.FieldFound | TSCE4.0/src/svr/buffer.c:213-232 | a clean field is found behind the pieces of the fields before it |
| Strtok.OffsetIsSurplus | TSCE4.0/src/svr/buffer.c:213-232 | for all fields, a field stands behind its place in the list by the surplus of tokens before it |
| Strtok.TokenOffsetIff | TSCE4.0/src/svr/buffer.c:213-232 | among fields without delimiter a position counts the non-empty fields before, and is right exactly when there is no empty one |
| ClientRecord.ErrorTextReadsIff | TSCE4.0/src/clr/data.c:111-116 | the error code can be read back from its text exactly when it has at most six digits |
| ClientRecord.NativeFieldIs | TSCE4.0/src/clr/data.c:134-152 | the field is the data of the first column of that name, or the code for a missing index when no column has it |
| ClientRecord.ScriptFieldsAre | TSCE4.0/src/clr/data.c:168-195 | item j of a script gives its value, or -1, if its key is the name of index j, and -3 otherwise or behind the configured indexes |
| ClientRecord.PlausibleIff | TSCE4.0/src/clr/data.c:40-50 | an output is refused exactly when it has no colon and no equals sign |
| ClientRecord.TrimmedIs | TSCE4.0/src/clr/data.c:42-45 | one newline at the end is dropped, and nothing else |
| ClientRecord.FlagsAre | TSCE4.0/src/clr/framework.c:30-49 | the flags -1, 1 and -2, or what the library returned |
| ClientRecord.AddErrorMask | TSCE4.0/src/clr/data.c:105-122 | appends the error text once per index; stops exactly where the assert does |
| ClientRecord.CompareIndexData | TSCE4.0/src/clr/data.c:125-154 | appends, per configured index, the first column of that name or the error text |
| ClientRecord.DealScriptData | TSCE4.0/src/clr/data.c:159-204 | appends one field per printed item, checked against the configured name at its place; stops exactly when there is no item or one without a key |
| ClientRecord.Client.LoadModules | TSCE4.0/src/clr/framework.c:14-53 | all flags, and the paths of the modules found as scripts numbered in module order |
| ClientRecord.Client.CollectData | TSCE4.0/src/clr/data.c:21-61 | succeeds exactly when every slot's script prints a key and a value; buffer j then holds the output of script j |
| ClientRecord.Client.CompleteModuleData | TSCE4.0/src/clr/data.c:209-247 | appends the module's fields and advances the script slot only for a script |
| ClientRecord.Client.CompleteAppData | TSCE4.0/src/clr/data.c:251-275 | walks the linked list; the record is all fields in configured order with the last delimiter dropped, for every configuration; without any field the byte before the buffer is cleared if it is a comma |
| ClientRecord.StrippedTokens | TSCE4.0/src/clr/data.c:269-272 | dropping the last delimiter changes no token |
| ClientAlignment.AllScripts | TSCE4.0/src/clr/data.c:33-51 | all slots print exactly when all scripts do and no library claims to be one |
| ClientAlignment.OneAligned | TSCE4.0/src/clr/data.c:221-240 | a module is encoded from its own measurements, flag or script |
| ClientAlignment.Aligned | TSCE4.0/src/clr/data.c:251-275 | walking the configuration, the slot counter meets every script's own buffer, for any mix of modules |
| ClientAlignment.AlignedDefined | TSCE4.0/src/clr/data.c:209-275 | the encoder stops exactly at a module whose assert fails or whose script printed no key |
| ClientAlignment.Setup | TSCE4.0/src/clr/clr.c:335-356 | the client is ready for its first cycle, when names fit their fields |
| ClientAlignment.Cycle | TSCE4.0/src/clr/clr.c:249-262 | exactly when a cycle fails, stops or sends; the record sent is what every module said for itself in that cycle, and the client is ready for the next |
| ClientAlignment.Cycles | TSCE4.0/src/clr/clr.c:249-298 | over any run every cycle sends its own record until the first that fails or stops |
| ClientAlignment.OwnFieldIs | TSCE4.0/src/clr/data.c:105-204 | what every field of a module is, for each way loading it can end, in terms of its measurements or the items its script printed |
| ClientAlignment.PositiveFlags | TSCE4.0/src/clr/data.c:33-51 | a library that registers with 1 makes every cycle fail, one with 2 sends no record |
| ClientAlignment.FieldCount | TSCE4.0/src/clr/data.c:209-247 | every branch contributes index_cnt fields but the script branch, which contributes one per printed item |
| ClientAlignment.OffsetIff | TSCE4.0/src/clr/data.c:251-275 | a module's fields start at the configured position exactly when the scripts before it printed as much as configured |
| ClientAlignment.FieldsAt | TSCE4.0/src/clr/data.c:251-275 | the fields of a module stand in the record directly behind those of the modules before it |
| ClientAlignment.RecordLengthIff | TSCE4.0/src/clr/data.c:251-275 | the record has one field per configured index exactly when the scripts' totals match |
| ServerReply.SplitIndexData | TSCE4.0/src/svr/buffer.c:213-232 | every byte of every cell after all copies |
| ServerReply.CellIsString | TSCE4.0/src/svr/buffer.c:253-257 | the string at a cell is its token, run together with the following ones when it fills the cell |
| ServerReply.CellIsWholeIff | TSCE4.0/src/svr/buffer.c:228-228 | a token of any length is read back whole exactly when it is shorter than a cell or what runs on behind 32 characters is its own rest |
| ServerReply.LongTokenExample | TSCE4.0/src/svr/buffer.c:228-228 | a token of 32 characters is read together with the next one |
| ServerReply.PartOneNode | TSCE4.0/src/svr/buffer.c:234-260 | the requested positions, in the order requested, each with a delimiter |
| ServerReply.RepliesAre | TSCE4.0/src/svr/buffer.c:150-181 | the replies of a node that is down or unknown, and of an active one without and with recent data |
| ServerReply.PartOfAllIsAll | TSCE4.0/src/svr/buffer.c:150-295 | asking for all positions gives the full reply and one comma |
| NodeBuffer.NodeData.PutData | TSCE4.0/src/svr/buffer.c:113-134 | one packet more at the end of the list, all others kept |
| NodeBuffer.NodeData.SetRecentData | TSCE4.0/src/svr/buffer.c:137-147 | changes the packet in the head only |
| NodeBuffer.NodeData.ClearNode | TSCE4.0/src/svr/buffer.c:327-343 | the list is empty, the recent packet stays but is marked absent |
| NodeBuffer.History | TSCE4.0/src/svr/buffer.c:113-343 | after any sequence of operations: the count is the list's length, the list holds the packets put since the last clear in arrival order, the recent packet is the last one set |
| NodeBuffer.NodeData.Perform | TSCE4.0/src/svr/buffer.c:113-343 | any sequence of these operations on the linked list leaves what the history of it says |
| NodeBuffer.NodeData.GetAll | TSCE4.0/src/svr/buffer.c:150-181 | name, status and, for an active node with recent data, the whole record |
| NodeBuffer.NodeData.GetPart | TSCE4.0/src/svr/buffer.c:263-295 | name, status and the requested fields |
| NodeBuffer.GetNodesDataCount | TSCE4.0/src/svr/buffer.c:364-389 | the least count of an active node, 0 if none is active |
| NodeBuffer.CheckNodesDataStatus | TSCE4.0/src/svr/buffer.c:346-361 | 1 exactly when every active node has data |
| NodeBuffer.StatusIffMinimum | TSCE4.0/src/svr/buffer.c:346-389 | the two agree |
| EndToEnd.ConfigurationIsUsable | TSCE4.0/src/_con/con_config.c:190-216 | after a file read without error base names are distinct, as monitor_data needs, the selected modules are distinct, as the encoder needs, and no index name occurs in two of them |
| EndToEnd.Start | TSCE4.0/src/clr/clr.c:71-117 | both configurations, the selection and the loading together: a client ready for its cycles, with distinct modules that share no index name, exactly when the file is accepted |
| EndToEnd.PositionsAreDistinct | TSCE4.0/src/_con/con_config.c:322-328 | different configured indexes have different positions |
| EndToEnd.PositionIsAnIndex | TSCE4.0/src/_con/con_config.c:322-328 | every position below the total belongs to a configured index |
| EndToEnd.FieldsAreCleanIff | TSCE4.0/src/clr/data.c:105-204 | error codes and script items can always be cut out again; only native values that are empty or contain a comma cannot |
| EndToEnd.SplitRecord | TSCE4.0/src/svr/buffer.c:213-232 | the server cuts every field of a record by itself |
| EndToEnd.SplitRecordIff | TSCE4.0/src/svr/buffer.c:213-232 | the server recovers exactly the client's fields exactly when all of them can be cut out |
| EndToEnd.FieldInRecord | TSCE4.0/src/clr/data.c:125-204 | what stands in a record for index i of a script or library: the value said or measured under its name, or the code for a missing index |
| EndToEnd.FieldOnWire | TSCE4.0/src/svr/buffer.c:234-295 | where the server finds index i of module m, whatever the other fields are, and that it replies with the client's value there |
| EndToEnd.ConfiguredPositionIff | TSCE4.0/src/svr/buffer.c:253-257 | for every record: that place is the configured position exactly when script surplus and the surplus of tokens from the values before it cancel out |
| EndToEnd.CommaFreePositionIff | TSCE4.0/src/svr/buffer.c:253-257 | when no value before the field has a comma, exactly when script surplus and the number of empty values before it are equal |
| EndToEnd.WireRoundTrip | TSCE4.0/src/svr/buffer.c:234-295 | asking for the position of index i of module m returns the field the client had for it, shifted by the excess of the scripts before it |
| EndToEnd.NoScriptsNoShift | TSCE4.0/src/clr/data.c:209-275 | without scripts every module has its configured number of fields and none is shifted |
| EndToEnd.PartOfRecordIsAll | TSCE4.0/src/svr/buffer.c:150-295 | for a client's record, asking for all positions gives the full reply and one comma |
| EndToEnd.EmptyValueExample | TSCE4.0/src/svr/buffer.c:213-232 | after an empty value the server gives the second index for the first |
| EndToEnd.CommaValueExample | TSCE4.0/src/svr/buffer.c:213-232 | after the value 1,2 the server gives 2 for the second index |
| EndToEnd.ShortScriptExample | TSCE4.0/src/clr/data.c:182-195 | after a script that prints one of two items the server gives nothing for the index of the next module, and that index for the missing item |
| EndToEnd.Exchange | TSCE4.0/src/clr/clr.c:249-263 | one cycle from collecting to the reply: collect, print, store, request |
| EndToEnd.FileToRecords | TSCE4.0/src/clr/clr.c:71-298 | from the configuration files to the records of all cycles |

## Left out

- TimeWindow.ConvertToLimitTimeWindow: requires a request whose candidates the C conversions are defined on (above half of the largest step and below 2^31 units); outside it a negative double is converted to an unsigned integer or B2POW shifts too far.
- TimeWindow.FromWindowIsDecoded: for Y = 31 the int wraps as two's complement machines and gcc do it; ISO C leaves that shift undefined. This holds for all members that read a register.
- PowerLimit.StoredWatts: requires a power whose quotient the conversion to a 64-bit unsigned integer is defined on.
- Rounding of doubles and of log: all arithmetic is exact, and the quotient of logarithms is the exact binary logarithm, truncated.
- Topology.Machine.BuildTopology: stops where the code would write outside a row; what such a write destroys is not modelled.
- Energy.Reader.Read: a division by an elapsed time of zero yields no number rather than an infinity.
- Handshake.SafeIff: with one to three devices memset writes behind the block of flags, which the model does not show. One atomic step writes or copies one field of a record or one flag, and interleavings are sequentially consistent, although the flags are plain characters that C gives no such order.
- HandshakeReturn.SomeReadReturnsIff: says that reads can return, not that they do; no scheduler is modelled.
- IndexConfig.AnalyseIndexInfoConfig: stops where a word and its NUL do not fit a field; what the code then overwrites is not modelled. trim_head is taken to skip the delimiters of the file; util.c is not part of this model. For a line that consists of a newline only the code looks before its buffer, which the model treats as a blank line.
- Strtok.Scanner.Next: the NUL characters that strtok_r writes into the text are not modelled; every text is split only once.
- ClientRecord.Client.CompleteAppData: the byte before the buffer, which C does not let the code reach through the buffer, is taken to be the last one of the head in front of it.
- ClientAlignment.Cycle: an empty path is taken to run no script that prints a key.
- EndToEnd.Start: called where the selection ends; otherwise monitor_data does not return.
- Sizes of the fixed buffers (record, cells, script pairs, modules) appear only as preconditions where a proof needs them.
- Allocation failures, locks, sockets, dlopen, popen, CPU binding and files: their answers are parameters.
- NodeBuffer: lookups of a node by name or address, and freeing the packets that a clear unlinks.
- cum_energy_mWh, elapsed totals, reporting and formatting of measurements.
- Accumulated throttled time, balance policies, parameters and the other read-only registers: one conversion each.
- begin_collect_data: starts modules in the order in which collect_data_from_modules reads them.
- GPU device enumeration, the /proc, NVML, InfiniBand and database modules: plumbing without state of their own.
