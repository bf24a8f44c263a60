# Verified models of hypervisor devices, a cluster simulator and a bare-metal runtime

The repository holds KVM's emulation of Hyper-V and PC devices, a simulator for serverless clusters and a
WebAssembly runtime for a bare-metal protection level. This project models their stateful cores in Dafny
and proves what they promise. Each file is one module; `dafny verify dfyconfig.toml` checks all of them.

| files | what they model |
|---|---|
| `tlb_flush.dfy` | the TLB flush FIFO of a vCPU, as a state machine over atomic accesses |
| `sparse_set.dfy`, `bits.dfy` | packed sparse sets of virtual processors and the vCPUs they select |
| `synic.dfy` | the SynIC vector bitmaps and the APICv count |
| `tsc_page.dfy` | the sequence protocol of the reference TSC page, as a state machine |
| `clock.dfy` | the conversion of kvmclock to reference time |
| `stimer.dfy` | synthetic timers |
| `root_tracking.dfy` | the shared root of remote TLB flushes |
| `pic.dfy`, `pic_runs.dfy` | the 8259 pair, and theorems over its runs |
| `pit.dfy` | tick reinjection of the 8254, as a state machine |
| `rep_string.dfy` | REP MOVS and REP STOS in the instruction emulator |
| `simulator.dfy`, `simulation.dfy` | the cluster simulator: truth of the cache, and the loops |
| `input_channel.dfy` | the request layout of the WebAssembly runtime and its parser |
| `mpk_allocator.dfy`, `runtime.dfy` | protection-key domains, module lifecycle and request loop |
| `int_text.dfy` | printing and parsing of integers |
| `sha512.dfy`, `sha512_constants.dfy`, `words.dfy` | SHA-512 against FIPS 180-4; where its constants come from; the bitwise operators |
| `arith.dfy`, `wrappers.dfy` | number types and division facts; `Option` |

Code that several processors run at once is a datatype of states with one labelled step per atomic access,
and the theorems speak of every run. Code that runs under a lock or on one thread is a class whose methods
follow the source and are tied to specification functions, with the theorems proved about these. Guest
memory accesses, hypercalls, the monitor, WAMR, clocks and random draws are parameters or arbitrary
outcomes.

Where a promise does not hold in general there is a lemma with the input or the run that breaks it and,
unless said otherwise, an exact condition under which it holds:

* A request made between a full flush and its purge is thrown away (`TlbFlush.PurgeForgetsARequest`). The
  model keeps the set of pages this happens to: every other page asked for is covered, and none of these is
  stale in the TLB (`TlbFlush.NoFlushLost`).
* A TSC page update that restarts from sequence zero can tear a read (`TscPage.RestartTearsARead`), and so can
  2^32 - 2 updates during it (`TscPage.FullCycleTearsARead`). Without either a read is whole; that is
  sufficient, and neither premise can be dropped.
* The overflow test of the TSC scale refuses every clock with a shift of -30 or -31 (`Clock.TestIsExact`), and
  the error bound holds exactly while the time fits in 64 bits (`Clock.ErrorBound`).
* A reset of the PIT can let a second interrupt out before the first is acknowledged exactly if it finds an
  interrupt outstanding (`Pit.OneInjectionPerAck`, `Pit.HarmfulResetAllowsSecond`), and can lose ticks exactly
  if it finds interrupts in flight (`Pit.QuiescenceAccountsForTicks`, `Pit.CarriedInterruptsCostTicks`).
* The PIT can inject more interrupts than there are ticks, also with acknowledges that never overlap
  (`Pit.MoreInjectionsOneAtATime`): the cause is an injection that finds no more ticks pending than interrupts
  in flight (`Pit.WithinTicksExactly`).
* A set-priority command can make an end of interrupt retire a line other than the most recent one
  (`PicRuns.SetPriorityKeepsTop`).
* The simulator finds the application of a function only if its name has no dash
  (`SimState.SplitFindsApplication`).
* The runtime documents no limit on the number of arguments, but reads 16 and then looks for the byte code
  in the wrong place (`InputChannel.ReceivedIsSent`, `InputChannel.WasmLookedForEarly`).
* A module is unloaded on the wrong heap exactly if its domain cannot be entered
  (`WamrRuntime.Runtime.UnloadModule`).
* The digit buffer is too small for bases below 10, which its comment includes (`IntText.BufferSuffices`).
* The SHA-512 length field is right exactly below 2^61 bytes (`Sha512.LengthFieldExact`).

## Model

| member | source | states |
|---|---|---|
| `TlbFlush.StepKeepsInv` | host/kvm/hyperv.c:1931-1999 | every atomic step of a writer, the reader, a full flush or the guest keeps the invariant: a full FIFO contains flush-all, the ring never overtakes itself, and whatever is stale in the TLB is covered |
| `TlbFlush.RunInv` | host/kvm/hyperv.c:1931-1999 | the invariant holds in every state of every run of every interleaving |
| `TlbFlush.EnqueueNeverTruncates` | host/kvm/hyperv.c:1934-1960 | the warning about a truncated write never fires: on the branch that carries it the whole request fits at the moment it is put, whatever it consists of; a full FIFO contains flush-all |
| `TlbFlush.FitLosesNothing` | host/kvm/hyperv.c:1945-1958 | a request is dropped for lack of room only when the FIFO is full, and then flush-all is in it |
| `TlbFlush.CoveredStays` | host/kvm/hyperv.c:1963-1999 | a page covered by a FIFO entry, a writer, the drained batch or an owed full flush stays covered through every step but its own invalidation and a purge |
| `TlbFlush.PublishedStays` | host/kvm/hyperv.c:1963-1999 | likewise for what has been published: the cover does not fall back on a writer |
| `TlbFlush.AttendedStays` | host/kvm/hyperv.c:1963-1999 | a published page that the TLB holds stays in reach of the reader through every step but its own invalidation, a full flush and a purge: the request bit is set, or the reader has taken it and not looked yet, holds the page in its batch or owes a full flush |
| `TlbFlush.NoFlushLost` | host/kvm/hyperv.c:1931-1999 | in every reachable state every page asked for has been invalidated since, or is still covered, or is one whose last entry a purge has thrown away; such a page is not stale in the TLB |
| `TlbFlush.NoStaleTranslationForgotten` | host/kvm/x86.c:3591-3613 | purges included, every translation the TLB still holds from before a request for it is covered |
| `TlbFlush.GuestEntryIsSafe` | host/kvm/x86.c:10790-10793 | when the guest is entered with the request bit clear, the TLB holds nothing stale that a completed hypercall asked to flush, for any number of other hypercalls between their enqueue and the request bit; what is stale belongs to these or to the lock holder |
| `TlbFlush.ForgottenMeansInvalidated` | host/kvm/hyperv.c:1980-1990 | in one step a page leaves the sets of pages asked for, stale, or stale for a completed hypercall only if the TLB does not hold it afterwards |
| `TlbFlush.HeldMeansOwed` | host/kvm/hyperv.c:1931-1999 | over every run: a translation that was in the TLB when some hypercall asked for it, and has been there ever since, counts as stale, as asked for, and as owed to that very hypercall, at whatever stage that is |
| `TlbFlush.HeldMeansCovered` | host/kvm/hyperv.c:1931-1999 | so a FIFO entry, a writer, the drained batch or an owed full flush will still flush it |
| `TlbFlush.RequestIsCarriedOut` | host/kvm/x86.c:10790-10793 | once a hypercall has set the request bit and the guest is entered with the bit clear, the TLB has been without each page the hypercall asked for at some moment since it took the lock |
| `TlbFlush.OnePageFlushed` | host/kvm/hyperv.c:1931-1999 | a run of the whole life of a request: the page is stale until the reader invalidates it, and is no longer when the guest brings it back |
| `TlbFlush.EntryNamesPages` | host/kvm/hyperv.c:1982-1988 | an entry covers exactly the pages that its base and its count of further pages encode, modulo 2^52 |
| `TlbFlush.RequestNamesPages` | host/kvm/hyperv.c:1941-1953 | a request asks for exactly the pages its entries name, and for all pages if it has none |
| `TlbFlush.PurgeForgetsARequest` | host/kvm/hyperv.h:206-216 | purges do throw requests away: a concrete run in which a request made between a full flush and its purge is left with nothing to cover it |
| `SparseSet.PackRoundTrip` | host/kvm/hyperv.c:1815-1824 | packing a set of processors in ascending banks and testing membership by population count gives back exactly the set; the mask has one bit for each bank sent |
| `SparseSet.TestReadsOnlyWhatWasSent` | host/kvm/hyperv.c:1835-1855 | the membership test on a reused buffer reads only banks the guest sent with this call, whatever older contents lie behind them and although banks beyond the cap are not fetched |
| `SparseSet.Vm.CreateVcpu` | host/kvm/hyperv.h:88-93 | a vCPU without a context counts with its own number as VP index, so adding it keeps the mismatch counter exact |
| `SparseSet.Vm.InitContext` | host/kvm/hyperv.c:960-989 | creating the context changes no VP index and keeps the counter exact |
| `SparseSet.Vm.SetVpIndex` | host/kvm/hyperv.c:1526-1549 | a write is refused exactly for guests and for indices at or above the limit (after truncation to 32 bits); the counter stays equal to the number of vCPUs whose VP index is not their number |
| `SparseSet.NoMismatch` | host/kvm/hyperv.c:1796-1813 | the counter is zero exactly if every VP index is the number of its vCPU, which is what justifies the fast path |
| `SparseSet.Vm.Unpack` | host/kvm/hyperv.c:1820-1824 | after the loop bit vp of the bitmap is set exactly if the membership test holds for vp, for every legal vp |
| `SparseSet.Vm.SparseSetToVcpuMask` | host/kvm/hyperv.c:1792-1833 | on the fast and on the slow path, bit i of the mask is set exactly if the membership test holds for the VP index of vCPU i, for every existing vCPU |
| `SparseSet.Vm.GetSparseVpSet` | host/kvm/hyperv.c:1882-1924 | the buffer receives the banks of the call, from XMM halves after those already used or from guest memory, up to the cap; too many banks or a fault are errors |
| `SparseSet.Vm.FlushTargets` | host/kvm/hyperv.c:2092-2152 | an extended flush outside guest mode fails exactly for a count that is not the weight of the mask or banks that cannot be read, and otherwise targets, in ascending order, exactly the vCPUs whose VP index the set lists (or all) |
| `SparseSet.Vm.IpiTargets` | host/kvm/hyperv.c:2196-2214 | an extended IPI has the same errors and the same targets, found by the membership test alone |
| `Bits.RankStep` | host/kvm/hyperv.c:1848-1851 | the weight of the mask below bit n+1 is that below bit n plus bit n: the running counter of the unpacking loop is the population count of the test |
| `Synic.BitmapIsComplete` | host/kvm/hyperv.c:107-115 | the bitmap answers for every vector exactly if no register delivers a vector below 16 |
| `Synic.RegisterLayout` | host/kvm/hyperv.c:66-78 | the vector is the low byte of a register, bit 16 masks it and bit 17 asks for automatic EOI, whatever the other bits are |
| `Synic.OtherVectorsStay` | host/kvm/hyperv.c:171-182 | a register write changes the result of a scan for no vector but the old and the new one |
| `Synic.VcpuSynic.constructor` | host/kvm/hyperv.c:556-566 | a fresh SynIC has all registers masked and both bitmaps agreeing with them |
| `Synic.VcpuSynic.HasVectorConnected` | host/kvm/hyperv.c:80-90 | true exactly if some register delivers the vector |
| `Synic.VcpuSynic.HasVectorAutoEoi` | host/kvm/hyperv.c:92-105 | true exactly if some register delivers the vector with automatic EOI |
| `Synic.VcpuSynic.UpdatedAgrees` | host/kvm/hyperv.c:155-188 | updating the bits of the old and of the new vector is enough to make both bitmaps equal to the scan again |
| `Synic.Vm.Recount` | host/kvm/hyperv.c:122-152 | the count moves exactly when a bitmap becomes empty or stops being empty, and APICv is inhibited while the count is not zero |
| `Synic.Vm.UpdateVector` | host/kvm/hyperv.c:107-153 | one vector of one vCPU is refreshed in both bitmaps; the count stays the number of vCPUs with a non-empty automatic-EOI bitmap |
| `Synic.Vm.SetSint` | host/kvm/hyperv.c:155-188 | a write is refused exactly for an invalid, unmasked vector from the guest; after any write bitmaps and count agree with the registers of all vCPUs |
| `Synic.Vm.InhibitedWhileUsed` | host/kvm/hyperv.c:144-150 | APICv is inhibited exactly while some vCPU has a register that delivers a valid vector with automatic EOI |
| `TscPage.SeqReturns` | host/kvm/hyperv.c:1213-1218 | the sequence comes back to its value after 2^32 - 2 updates and not before |
| `TscPage.RunInv` | host/kvm/hyperv.c:1158-1247 | what the status, the page and a read in progress promise holds in every state of every interleaving of host and guest steps, failed guest accesses included |
| `TscPage.AcceptedReadIsWhole` | host/kvm/hyperv.c:1190-1227 | a read that sees one non-zero sequence at both ends returns scale and offset that became visible together with it, if fewer than 2^32 - 2 updates completed meanwhile and none of them restarted from sequence zero |
| `TscPage.SetMeansAgreement` | host/kvm/hyperv.c:568-585 | while the status is SET the page has a non-zero sequence and guest and get_time_ref_counter compute the same time |
| `TscPage.GuestEnablesAnew` | host/kvm/hyperv.c:1187-1202 | when the guest enables the page the update cannot keep its contents and first takes them back |
| `TscPage.RestoredPageIsKept` | host/kvm/hyperv.c:1187-1193 | when the host restores the register under TSC emulation a page that was filled in stays, and the host takes over what it says |
| `TscPage.RestartTearsARead` | host/kvm/hyperv.c:1432-1443 | the premise on restarts is needed: a run in which a failed update leaves sequence zero, the page is enabled again, and a reader accepts a mixture |
| `TscPage.FullCycleTearsARead` | host/kvm/hyperv.c:1213-1218 | the premise on the number of updates is needed: with 2^32 - 2 of them during a read it returns a mixture |
| `Clock.TscReference.Compute` | host/kvm/hyperv.c:1109-1141 | succeeds exactly for a stable clock with a shift of at least -29 whose scale fits in 64 bits, and then sets scale and offset; otherwise it touches nothing |
| `Clock.TestIsExact` | host/kvm/hyperv.c:1117-1126 | over all shifts C defines, the overflow test accepts exactly the clocks whose scale fits in 64 bits, except that for shifts of -30 and -31 the limit itself overflows and every clock is refused |
| `Clock.ReferenceTimeIsUnbounded` | host/kvm/hyperv.c:1128-1141 | the 64-bit reference time is the unbounded one modulo 2^64 |
| `Clock.UnboundedIsClose` | host/kvm/hyperv.c:1074-1108 | with all three roundings the unbounded value is less than 3 below and less than 1 above the exact kvmclock time in units of 100 ns |
| `Clock.ErrorBound` | host/kvm/hyperv.c:568-585 | the time read satisfies this bound exactly if the unbounded value fits in 64 bits |
| `Stimer.NextOnGrid` | host/kvm/hyperv.c:638-648 | the next expiry time stays congruent to the first one modulo the period |
| `Stimer.NextIsSoonest` | host/kvm/hyperv.c:640-646 | among the times of the grid within one period after now there is no other: late ticks are skipped, none is invented |
| `Stimer.LaterUnlessWrapped` | host/kvm/hyperv.c:638-648 | the 64-bit expiry time is later than now exactly if the next expiry fits in 64 bits |
| `Stimer.Timer.Start` | host/kvm/hyperv.c:630-682 | a periodic timer gets, if it is new, the time one period from now, and else the next time of its grid, strictly later than now and at most one period away unless it wraps, and arms the hrtimer for it; a one-shot timer in the past is marked pending at once |
| `Stimer.Timer.StartPeriodic` | host/kvm/hyperv.c:637-649 | over any number of restarts since the last cleanup the expiry time stays on the grid of the first one, until one does not fit in 64 bits |
| `Stimer.Timer.SetConfig` | host/kvm/hyperv.c:684-714 | refused, with nothing changed, exactly with the SynIC inactive (unless the host writes zero) or for direct mode from a guest that is not offered it; otherwise the new configuration starts from a clean timer, with enable dropped for SINT 0 without direct mode if it was enabled before, and pending exactly if enabled |
| `Stimer.Timer.SetCount` | host/kvm/hyperv.c:716-741 | refused, with nothing changed, exactly with the SynIC inactive unless the host writes zero; otherwise a clean timer with the new count: zero disables, auto-enable enables, unless the host writes it |
| `Stimer.Timer.Process` | host/kvm/hyperv.c:863-890 | a timer never goes off before its time; one in use afterwards is pending, armed or waits with a message; only a failed direct delivery leaves a message that no SINT acknowledgement retries |
| `Stimer.Vcpu.ProcessStimers` | host/kvm/hyperv.c:863-890 | the whole of that for each of the four timers of a vCPU in one pass, with time read twice for each |
| `RootTracking.Kvm.CreateVcpu` | host/kvm/x86.c:12175 | a new vCPU starts without a root, so a tracked root stays the common one |
| `RootTracking.Kvm.TrackRoot` | host/kvm/kvm_onhyperv.c:112-123 | a vCPU root that differs from the tracked one invalidates it; the tracked root, if valid, still equals every valid root |
| `RootTracking.Kvm.FlushRemoteTlbs` | host/kvm/kvm_onhyperv.c:37-93 | a flush that returns 0, by one hypercall or by the loop, has flushed every valid root of every vCPU; whatever fails, the tracked root ends up valid exactly if there is a common root; with a tracked root there is one hypercall |
| `Pic.PriorityIsLeastDistance` | host/kvm/i8259.c:121-130 | get_priority is the least rotated distance of a line in the mask, and 8 exactly for the empty mask |
| `Pic.Kpic.SetIrq1` | host/kvm/i8259.c:91-115 | edge and level handling of one line, with the result -1, 0 or 1 for masked, coalesced and delivered |
| `Pic.Kpic.GetPriority` | host/kvm/i8259.c:121-130 | the counting loop finds the first line in rotated order |
| `Pic.Kpic.GetIrq` | host/kvm/i8259.c:135-159 | the wanted interrupt: the nearest request that is nearer than everything in service that blocks it |
| `Pic.Kpic.DoReset` | host/kvm/i8259.c:272-305 | ICW1 keeps the trigger modes and level requests and clears the rest; retired edge requests depend on whether some vCPU accepts PIC interrupts |
| `Pic.Kpic.WriteOcw2` | host/kvm/i8259.c:330-364 | all eight OCW2 commands and whether each recomputes the output |
| `Pic.Kpic.WriteEven` | host/kvm/i8259.c:307-365 | a write to the even port: initialisation, OCW3 or OCW2 |
| `Pic.Kpic.WriteOdd` | host/kvm/i8259.c:366-397 | a write to the odd port: the mask, or the next word of an initialisation |
| `Pic.KvmPic.UpdateIrq` | host/kvm/i8259.c:165-179 | a wish of the slave reaches the master as a pulse on line 2, and the output follows the master |
| `Pic.KvmPic.SetIrqLine` | host/kvm/i8259.c:188-204 | a line change of the pair and the recomputed output |
| `Pic.KvmPic.ReadIrqVector` | host/kvm/i8259.c:236-270 | the acknowledge cycle through the cascade: which lines are taken, the vector, and line 7 for a request that has gone away |
| `PicRuns.Perform` | host/kvm/i8259.c:188-454 | the objects do what the specification functions say over any sequence of operations |
| `PicRuns.VectorAsProgrammed` | host/kvm/i8259.c:236-270 | after the initialisation words have been written to both controllers, the vector of a device request is the base given to its controller with the line in the low three bits, and that of line 7 of the master if nothing is requested |
| `PicRuns.InServiceIsAStack` | host/kvm/i8259.c:135-159 | with fixed priorities and fully nested mode, over any run of line changes, masks, acknowledges, non-specific EOIs and any commands to the other controller, the in-service byte holds exactly what a stack holds, and each EOI retires the most recent acknowledge |
| `PicRuns.EoiPops` | host/kvm/i8259.c:336-346 | a non-specific EOI finds exactly the top of the stack |
| `PicRuns.SetPriorityKeepsTop` | host/kvm/i8259.c:352-355 | the premise on set-priority commands is needed: after one, the next non-specific EOI retires the most recent acknowledge exactly if that line still comes first |
| `PicRuns.SetPriorityRetiresAnother` | host/kvm/i8259.c:352-355 | a run from power-on in which line 1 interrupts line 3, and after the command the next EOI retires line 3 |
| `PicRuns.AckRotates` | host/kvm/i8259.c:219-234 | in rotating mode an acknowledge of another line brings a waiting line strictly nearer to the front |
| `PicRuns.WaitingGetsNearer` | host/kvm/i8259.c:121-159 | every acknowledge that is not its own brings a waiting line nearer, over any run |
| `PicRuns.BoundedWaiting` | host/kvm/i8259.c:121-159 | a line that stays requested and unmasked is served within as many acknowledges of its controller as its distance plus one, so within eight, whatever else happens |
| `Pit.RunInv` | host/kvm/i8254.c:203-289 | the protocol invariant holds in every interleaving of timer callback, worker, acknowledge callbacks and resets |
| `Pit.PendingTickIsServed` | host/kvm/i8254.c:240-252 | pending ticks with no interrupt awaiting its acknowledge and no acknowledge midway mean that a work item is queued, running or about to be queued |
| `Pit.QuiescenceAccountsForTicks` | host/kvm/i8254.c:268-289 | when nothing is in flight no tick is pending, and the ticks since the last reset are at most the interrupts since, plus one for each interrupt that was in flight at that reset; with none in flight every tick has had an interrupt |
| `Pit.CarriedInterruptsCostTicks` | host/kvm/i8254.c:285-289 | the condition on the reset is exact: after every reset that finds interrupts in flight the run can go on until all is quiet and one tick for each of them has had no interrupt |
| `Pit.TickWithoutInterrupt` | host/kvm/i8254.c:641-650 | a short run: one tick and no injection, because the acknowledge of an interrupt from before the reset takes the tick |
| `Pit.OneInjectionPerAck` | host/kvm/i8254.c:203-289 | in every run in which no reset sets irq_ack with an interrupt outstanding (injected and not acknowledged, or about to be injected), at most one interrupt is injected between acknowledge callbacks, and it is the one awaited |
| `Pit.HarmfulResetAllowsSecond` | host/kvm/i8254.c:285-289 | the condition is exact: from the first reset about to set irq_ack with an interrupt outstanding every run can go on to a second injection without an acknowledge and without another reset |
| `Pit.Settles` | host/kvm/i8254.c:203-289 | without new ticks and resets, and with a guest that acknowledges, the callbacks stop after at most Energy steps in any order, with nothing pending |
| `Pit.ResetAllowsSecondInjection` | host/kvm/i8254.c:285-289 | an instance in which a reset lets a second interrupt out while the first is unacknowledged |
| `Pit.InjectionsWithinTicks` | host/kvm/i8254.c:203-289 | over all runs, resets included: if every injection finds more ticks pending than interrupts in flight, injections never outnumber ticks; and when all is quiet they are equal in number if the last reset left none in flight |
| `Pit.UnwantedInjectionExceeds` | host/kvm/i8254.c:240-265 | the first injection without such a tick puts injections ahead of ticks at once, and no other does, unless the last reset left interrupts in flight |
| `Pit.WithinTicksExactly` | host/kvm/i8254.c:203-289 | in runs whose resets find nothing in flight, injections stay within ticks if and only if every injection finds more ticks pending than interrupts in flight |
| `Pit.MoreInjectionsOneAtATime` | host/kvm/i8254.c:203-265 | an instance without overlapping acknowledge callbacks: the work item queued for a tick runs after an acknowledge has taken that tick |
| `Pit.MoreInjectionsThanTicks` | host/kvm/i8254.c:203-216 | an instance with two overlapping acknowledge callbacks |
| `SimState.SplitFindsApplication` | AzureTraces/scheduler.py:39-42 | the application is recovered from a function id exactly if its name contains no dash |
| `SimState.FuncIdInjective` | AzureTraces/scheduler.py:22 | without dashes in application names a function id names one function of one application |
| `SimState.FuncIdAmbiguous` | AzureTraces/simulate.py:247 | with a dash two functions of different applications can share an id |
| `SimState.CachedTrue` | AzureTraces/simulate.py:143-177 | giving a function its cache slot keeps the cache truthful about the history that includes the new start |
| `SimState.VictimIsLeastRecentlyUsed` | AzureTraces/simulate.py:159-177 | a slot replaced for lack of room belongs to the function whose last start on that node is furthest back |
| `SimState.StartedWithinMeans` | AzureTraces/simulate.py:53-62 | what warm means: the log holds a start of the function on that node at most the caching time ago, and it is the last one |
| `SimState.HoldsMeansRecentStart` | AzureTraces/simulate.py:53-62 | a live slot means that its function was started on that node within the caching time |
| `SimState.WarmMeansRecentStart` | AzureTraces/scheduler.py:23-37 | a warm choice means that the function was started on that node within the caching time |
| `SimState.AdvanceTrue` | AzureTraces/simulate.py:53-62 | ageing all caches by the time that passes keeps every live slot equal to the time since the last start, at most the caching time |
| `SimState.EarliestNoPast` | AzureTraces/simulate.py:65-87 | when the function that ends first ends, no other has ended before |
| `SimState.StartedTrue` | AzureTraces/simulate.py:301-303 | a start keeps the whole state truthful |
| `SimState.SlotsStarted` | AzureTraces/simulate.py:294-302 | a start in an empty slot keeps the execution slots truthful: every logged function has ended or runs where it was started until its end, what runs was logged, and functions in one slot do not overlap |
| `SimState.SlotsStopped` | AzureTraces/simulate.py:105-115 | so does ending the function that ends first |
| `SimState.AllBusyTaken` | AzureTraces/simulate.py:252-260 | a slot that is taken at some time is taken by a logged function whose time includes it |
| `SimState.RunningAtOnce` | AzureTraces/simulate.py:224-232 | never do more functions run on a node at once than it has execution slots |
| `Simulation.Node.Age` | AzureTraces/simulate.py:53-62 | the ageing loop: every live slot gets older by the increment, those beyond the caching time are freed, and the number evicted is the drop in live slots |
| `Simulation.Node.LookFor` | AzureTraces/scheduler.py:23-37 | the search through one cache finds the function, else whether anything of the application is there |
| `Simulation.Node.FindCacheSlot` | AzureTraces/simulate.py:143-177 | the slot that holds the function, else the first free one, else the first of the oldest |
| `Simulation.Simulation.GetEarliestFuncFinish` | AzureTraces/simulate.py:65-87 | the first of the running functions with the earliest end, and of several with that end the first, if any runs |
| `Simulation.Simulation.UpdateSimulation` | AzureTraces/simulate.py:89-141 | time moves to the next end or the next start and never backwards: the three error branches cannot be reached |
| `Simulation.Simulation.CacheFunction` | AzureTraces/simulate.py:143-177 | the utilisation counter follows the number of live slots |
| `Simulation.Simulation.PickNextNode` | AzureTraces/scheduler.py:15-69 | the first free node that caches the function, else the last free one that caches something of the application, else the first free one, with its first empty slot |
| `Simulation.Simulation.WaitForFreeNode` | AzureTraces/simulate.py:252-260 | the first wait ends with an empty execution slot on some node, and all the time it takes every slot is taken |
| `Simulation.Simulation.WaitUntilStart` | AzureTraces/simulate.py:262-268 | the second wait ends at the arrival, or at once if that is past, with an empty slot still there |
| `Simulation.Simulation.Choose` | AzureTraces/simulate.py:270-293 | the place is the one the rule of the scheduler determines, "No free node found" cannot be reached, and the boot is warm exactly if a free node caches the function, else soft-warm or cold by the application (or the coin) |
| `Simulation.Simulation.ChooseAndStart` | AzureTraces/simulate.py:270-303 | the function is started there and ends after its duration and boot time |
| `Simulation.Simulation.Schedule` | AzureTraces/simulate.py:239-310 | one row starts not before its arrival; while it is ready and waits every slot of every node is taken; it ends after duration and boot time; its delay is the wait plus the boot time |
| `Simulation.Simulation.Drain` | AzureTraces/simulate.py:326-328 | the last wait ends with nothing running |
| `Simulation.Simulation.Run` | AzureTraces/simulate.py:237-328 | every row starts in trace order as soon as it has arrived, the row before it has started and some slot is empty; functions in one slot of one node do not overlap, so a node never runs more than it has slots; warm means a start on that node within the caching time; the counters count their kinds and add up; and the simulation ends after every end |
| `RepString.CountDown` | host/kvm/emulate.c:5397 | the masked count goes down by one for each element |
| `RepString.ElementsCount` | host/kvm/emulate.c:5390-5416 | after n elements the masked count is n lower |
| `RepString.AdvanceMask` | host/kvm/emulate.c:3041-3048 | an index register has moved by n elements, up with the direction flag clear and down with it set, modulo the address size |
| `RepString.BlockMoved` | host/kvm/emulate.c:5384-5388 | if no destination overlaps another or a later source, the simple loop is a block move or fill: every destination holds what its source held at the start and nothing else changes |
| `RepString.AddressSpaceIs` | host/kvm/emulate.c:3041-3048 | registers count modulo 256 to the power of the address size in bytes |
| `RepString.AdvanceMoves` | host/kvm/emulate.c:3041-3048 | the whole index register after n elements: 16-bit addressing keeps its upper bits, 32-bit addressing clears them |
| `RepString.CountMoves` | host/kvm/emulate.c:5397 | the whole count register after n elements |
| `RepString.ElementsMoveBlock` | host/kvm/emulate.c:5384-5388 | in terms of registers, bases, element size and direction alone: without wrap or harmful overlap every byte of the destination block holds what the byte at the same place of the source block held at the start (of the accumulator, for STOS), and nothing else changes |
| `RepString.Emulator.ReadEmulated` | host/kvm/emulate.c:1356-1379 | what is behind the position in the read cache is served from there, anything else is loaded |
| `RepString.Emulator.EmulateInsn` | host/kvm/emulate.c:5140-5418 | one call moves exactly one element of the simple loop with operands that match the registers, or ends the instruction when the masked count is zero; it restarts without decoding except every 1024 counts |
| `RepString.Emulator.RunDecoded` | host/kvm/x86.c:9194-9246 | from one decoding to the next return to the guest at least one element is moved, or the instruction ends |
| `RepString.Emulator.ExecuteInstruction` | host/kvm/emulate.c:5140-5418 | for every count, the restarts and re-executions end, past the instruction with count zero, in exactly the state of the simple loop, with no stale cache data and no element lost or repeated; and so with the registers moved by the whole block in the direction of the flag, and the block moved or filled |
| `InputChannel.ReadCall` | wamr-pal/wamr_pal_main.c:302-323 | the loops read the terminated name and at most 16 arguments, and find the offset behind them |
| `InputChannel.ReadWasm` | wamr-pal/wamr_pal_main.c:341-350 | the byte code is copied from that offset |
| `InputChannel.ReceivedIsSent` | wamr-pal/wamr_pal_main.c:48-73 | the runtime receives exactly the message encoded in the documented layout if and only if it has at most 16 arguments and no zero byte in its name |
| `InputChannel.WasmLookedForEarly` | wamr-pal/wamr_pal_main.c:316-327 | with more arguments the byte code is looked for four bytes early for each argument too many |
| `MpkAllocator.PkeyPool.Init` | wamr-pal/mpk_allocator_vmpl1.c:116-153 | the pool is filled exactly if the monitor hands out a key from 1 to 15 |
| `MpkAllocator.PkeyPool.Alloc` | wamr-pal/mpk_allocator_vmpl1.c:165-180 | a key that was not in use is taken off the stack, or -1 if the stack is empty |
| `MpkAllocator.PkeyPool.Free` | wamr-pal/mpk_allocator_vmpl1.c:182-190 | a key in use goes back; every key is in use or on the stack, once |
| `MpkAllocator.AddressSpace.Map` | wamr-pal/mpk_allocator_vmpl1.c:198-248 | a region of whole pages is mapped at the next address, or nothing has changed: exactly when addresses run out or the monitor refuses |
| `MpkAllocator.RegionsDisjoint` | wamr-pal/mpk_allocator_vmpl1.c:202-213 | any two regions ever mapped are disjoint and lie below the input channel |
| `MpkAllocator.RegionsRunOut` | wamr-pal/mpk_allocator_vmpl1.c:202-213 | addresses are never reused, so at most 557055 regions of 4 MB can be mapped |
| `MpkAllocator.Allocator.Init` | wamr-pal/mpk_allocator_vmpl1.c:304-346 | pool and default heap come up exactly if a key, addresses, the region and the mspace are to be had; a failure leaves no key out |
| `MpkAllocator.Allocator.DomainCreate` | wamr-pal/mpk_allocator_vmpl1.c:375-422 | a domain with a key of its own and a mapped region, or nothing has changed; it succeeds exactly if the size suffices, a key is on the stack, addresses are left and the monitor maps |
| `MpkAllocator.Allocator.DomainEnter` | wamr-pal/mpk_allocator_vmpl1.c:483-525 | on success the domain heap is current and its key the only one accessible, on failure the default state is kept; it succeeds exactly if there is a domain, the monitor agrees and the heap is made or can be |
| `MpkAllocator.Allocator.DomainExit` | wamr-pal/mpk_allocator_vmpl1.c:527-544 | back to the default heap with no key accessible |
| `MpkAllocator.Allocator.DomainDestroy` | wamr-pal/mpk_allocator_vmpl1.c:424-479 | the key is back in the pool and nothing is entered |
| `WamrRuntime.Runtime.LoadModule` | wamr-pal/wasmlet_vmpl1.c:123-185 | a module is loaded inside a new domain, or the state is as before; it succeeds exactly if the runtime is initialised, there is byte code, no module is loaded, addresses are left, and mapping, entering, making the heap and loading all succeed |
| `WamrRuntime.Runtime.UnloadModule` | wamr-pal/wasmlet_vmpl1.c:187-215 | module and domain are gone; the module was unloaded inside its domain exactly if the monitor let the runtime enter it, because the result of entering is not looked at |
| `WamrRuntime.Runtime.Invoke` | wamr-pal/wasmlet_vmpl1.c:219-368 | the call runs inside the domain and leaves it in every case; it succeeds exactly if a module is loaded, its domain is entered and the four calls into WAMR succeed, with the first argument slot as the result |
| `WamrRuntime.Runtime.RunInside` | wamr-pal/wasmlet_vmpl1.c:252-348 | success exactly if instantiation, environment, look-up and call all succeed, and then the first argument slot is the result |
| `WamrRuntime.Runtime.Init` | wamr-pal/wasmlet_vmpl1.c:57-98 | allocator and WAMR come up together, exactly if each of the four steps succeeds, or not at all |
| `WamrRuntime.Runtime.Destroy` | wamr-pal/wasmlet_vmpl1.c:100-119 | nothing is left loaded or initialised |
| `WamrRuntime.Runtime.LoadRequested` | wamr-pal/wamr_pal_main.c:335-366 | status 2 exactly without memory, 3 exactly if loading fails; either way no module and no buffer is left |
| `WamrRuntime.Runtime.LoadAndCall` | wamr-pal/wamr_pal_main.c:290-399 | mode 1: the old module goes first, the new one is the byte code received, and the call has the name and arguments received |
| `WamrRuntime.Runtime.CallOnly` | wamr-pal/wamr_pal_main.c:401-467 | mode 2: status 5 exactly if no module is in effect, else the call runs on the module in effect |
| `WamrRuntime.Runtime.HandleRequest` | wamr-pal/wamr_pal_main.c:276-472 | every request but shutdown gets exactly one status write and one notification, sent by the branch that fails or by the common end; status and result are those that the request, the module in effect, the addresses left and the outcomes decide |
| `WamrRuntime.Runtime.Serve` | wamr-pal/wamr_pal_main.c:258-489 | over every request stream and every outcome, each reply is the one decided by its request, the module in effect and the outcomes that came; the module in effect and the calls completed are those a guest computes from its requests and the replies |
| `WamrRuntime.Runtime.PalMain` | wamr-pal/wamr_pal_main.c:190-516 | the program starts exactly if heap and runtime can be initialised; until the shutdown signal there is one reply for each request, as decided; after it nothing is loaded, no buffer is held and every key is back |
| `WamrRuntime.FirstRequestServed` | wamr-pal/wamr_pal_main.c:290-399 | the first request that brings byte code is served, with the value of the first argument slot, if memory, mapping, entering, heap, load, entering again and the four calls succeed |
| `WamrRuntime.ShutdownIsEmpty` | wamr-pal/wamr_pal_main.c:276-280 | of the encoded messages exactly that without byte code and name is the shutdown signal |
| `WamrRuntime.Runtime.RegionsAreFew` | wamr-pal/mpk_allocator_vmpl1.c:202-213 | at most 557054 modules can be loaded in the life of the runtime, in domains that never overlap |
| `IntText.BufferSuffices` | wamr-pal/pal_string.c:348-366 | the 20-character digit buffer holds every 64-bit value exactly for bases of 10 and more; the comment promises bases from 2 |
| `IntText.NumeralLength` | wamr-pal/pal_string.c:352-366 | a number has at most n digits exactly if it is below base^n |
| `IntText.Digits` | wamr-pal/pal_string.c:352-366 | the division loop leaves the digits of the number in reverse |
| `IntText.FmtUint64` | wamr-pal/pal_string.c:349-384 | padding and digits are printed up to the room that is left, keeping one character for the terminator, and nothing else is touched |
| `IntText.FmtInt64` | wamr-pal/pal_string.c:387-407 | the same for a signed number, with the sign before the padding, down to the least number |
| `IntText.Strtoul` | wamr-pal/pal_string.c:273-313 | value modulo 2^64 and end position, with spaces, sign, prefix and base detection |
| `IntText.Strtol` | wamr-pal/pal_string.c:315-332 | the signed parser by way of the unsigned one |
| `IntText.UnsignedRoundTrip` | wamr-pal/pal_string.c:273-384 | the parser undoes the numeral of every 64-bit number, in every base from 2 to 16, any width, zeros or spaces, and stops at its end; that the printer produces this text is FmtUint64, for bases that its digit buffer serves |
| `IntText.SignedRoundTrip` | wamr-pal/pal_string.c:315-407 | the same for every signed number above the least in base 10, also with spaces between sign and digits |
| `IntText.NumeralCase` | wamr-pal/pal_string.c:359-366 | printed letters are in the case that was asked for |
| `IntText.PrefixTellsBase` | wamr-pal/pal_string.c:286-303 | with base 0, 0x and 0X mean base 16, a leading 0 base 8 and anything else base 10, for every 64-bit number; base 16 skips the same marks |
| `IntText.SpaceSkipped` | wamr-pal/pal_string.c:279-284 | any row of the six white-space characters and a plus sign before a number are skipped |
| `IntText.PrintThenParse` | wamr-pal/pal_string.c:273-384 | printing an unsigned number into a buffer in a base from 10 to 16, terminating it and parsing the buffer gives the number if the text fits; the parser gets to the end of the whole text exactly if it fits |
| `IntText.PrintThenParseSigned` | wamr-pal/pal_string.c:315-407 | the same in base 10 for every signed number above the least |
| `Words.AndBits` | wamr-pal/sha512_simple.c:20-28 | a bit of x & y, for words seen as numbers |
| `Words.XorBits` | wamr-pal/sha512_simple.c:20-28 | a bit of x ^ y |
| `Words.NotBits` | wamr-pal/sha512_simple.c:20-23 | a bit of ~x |
| `Words.ShrBits` | wamr-pal/sha512_simple.c:15-18 | bit i of x >> n is bit i + n of x |
| `Words.ShlBits` | wamr-pal/sha512_simple.c:15-18 | bit i of x << n is bit i - n of x, in 64 bits |
| `Sha512.RotrBits` | wamr-pal/sha512_simple.c:15-18 | bit i of x rotated by n is bit i + n of x in the ring of 64 bits, for every n from 1 to 63 |
| `Sha512.ChBits` | wamr-pal/sha512_simple.c:20-23 | each bit is that of y or of z, as that of x says |
| `Sha512.MajBits` | wamr-pal/sha512_simple.c:25-28 | each bit is that of at least two of the words |
| `Sha512.Sigma0Bits` | wamr-pal/sha512_simple.c:30-33 | bit i is the parity of the bits 28, 34 and 39 places further |
| `Sha512.Sigma1Bits` | wamr-pal/sha512_simple.c:35-38 | ... 14, 18 and 41 places further |
| `Sha512.Gamma0Bits` | wamr-pal/sha512_simple.c:40-43 | ... 1, 8 and, without rotation, 7 places further |
| `Sha512.Gamma1Bits` | wamr-pal/sha512_simple.c:45-48 | ... 19, 61 and, without rotation, 6 places further |
| `Sha512Constants.NthPrimeIs` | wamr-pal/sha512_simple.c:50 | each of the 80 numbers used is prime, with as many primes below it as its place in the row says |
| `Sha512Constants.RoundConstantIsCubeRoot` | wamr-pal/sha512_simple.c:50-92 | each of the 80 round constants is made of the first 64 bits of the fractional part of the cube root of the prime at its place |
| `Sha512Constants.InitialHashIsSquareRoot` | wamr-pal/sha512_simple.c:94-100 | likewise the eight initial hash values with square roots |
| `Sha512.RoundSums` | wamr-pal/sha512_simple.c:144-150 | the additions of a round, each cut to 64 bits, are the sums modulo 2^64 that the standard writes |
| `Sha512.OneRound` | wamr-pal/sha512_simple.c:144-150 | the eight assignments of the loop body are one round |
| `Sha512.ZeroCountIsLeast` | wamr-pal/sha512_simple.c:183-198 | the padding uses the least number of zero bytes that section 5.1.2 of FIPS 180-4 allows |
| `Sha512.NumberOfBigEndian` | wamr-pal/sha512_simple.c:102-122 | reading the big-endian bytes of a number gives the number |
| `Sha512.BigEndianOfNumber` | wamr-pal/sha512_simple.c:102-122 | writing the number of some bytes gives the bytes |
| `Sha512.StoreBe64` | wamr-pal/sha512_simple.c:102-113 | eight shifted bytes are the big-endian representation, and nothing else is touched |
| `Sha512.Transform` | wamr-pal/sha512_simple.c:125-155 | the in-place compression of one block, with the loop over the rounds as the source writes it, is that of section 6.4.2, defined by recursion on schedule and rounds with sums modulo 2^64 |
| `Sha512.LengthFieldExact` | wamr-pal/sha512_simple.c:200-202 | the length field is that of section 5.1.2 exactly for messages of less than 2^61 bytes |
| `Sha512.TwoBlocks` | wamr-pal/sha512_simple.c:191-203 | with 112 or more bytes left the padded message ends in two blocks: these bytes filled up, then zeros and the length |
| `Sha512.OneBlock` | wamr-pal/sha512_simple.c:177-203 | with fewer it ends in one |
| `Sha512.WholeBlocks` | wamr-pal/sha512_simple.c:170-175 | streaming whole blocks keeps the final hash value of the padded message |
| `Sha512.Finish` | wamr-pal/sha512_simple.c:177-203 | the padded last block or blocks complete the hash of the padded message |
| `Sha512.Simple` | wamr-pal/sha512_simple.c:157-209 | the digest is SHA-512 of the message as FIPS 180-4 defines it, for every message of less than 2^61 bytes |

## Left out

- Concurrency in the class models: SynIC, VP index, timer, root and simulator operations are taken one at a time; the source runs them under locks or on one thread, except that VP_INDEX writes and SynIC bitmap readers are not serialised with all their readers.
- Kfifo and spinlock internals: the flush FIFO is a log with a read index, the write lock is exclusive, and the full TLB flush is one step; the nested-guest FIFO is not modelled.
- Guest memory faults in the emulator: memory accesses of REP MOVS and STOS succeed; other string instructions, I/O read-ahead, EFLAGS.RF and segment checks are not modelled.
- PIC poll reads, port reads, mask notifiers and the window in which pic_clear_isr drops the lock for the ack notifier are not modelled; saving and restoring the device state neither.
- PIT counting modes, channel programming and the speaker: only the reinjection protocol in reinject mode is modelled, and its timer is an arbitrary source of ticks.
- Nested guests: translation of hypercall addresses, the L2 VP identifiers and the nested branch of the flush hypercall are not modelled; neither is the vector check of the IPI hypercall.
- The flush and IPI hypercalls that carry one 64-bit mask instead of a sparse set, and that treat an empty flush mask as all processors, are not modelled.
- Hyper-V registers other than VP index, SINT, timer and TSC page, CPUID masks, debugger and crash registers are routine branch lists.
- Message delivery to SynIC pages is an outcome: delivered or not.
- Pic.Kpic.WriteEven: the poll, read-select and special-mask bits that OCW3 sets are not state of the model, because the polls and port reads that they steer are not modelled.
- RootTracking: the teardown of vCPUs is not modelled, and a hypercall is an outcome with no further effect.
- Clock: shifts for which C's shift counts are undefined are excluded.
- IntText.Strtol: the result for the least number is not stated as a C long, because C leaves its negation undefined; of vsnprintf only one number and the terminator are modelled; its format interpreter, memcmp and strncpy are not modelled.
- InputChannel: the channel is long enough for what its header announces, with zeros after what was sent.
- WamrRuntime: the environment hash that wasmlet_invoke writes into the output channel, the debug output, inflating the output channel and dlmalloc are not modelled; leaving a domain is taken to succeed, and what the monitor does with returned keys is not part of this model.
- MpkAllocator.PkeyPool.Init: the pool has the one key that the source asks for; larger pools would need the monitor never to return a key twice.
- Simulation: random boot times and the coin for soft warming are drawn outside and passed in, times are real numbers, per-function delay statistics, logging and progress bars are left out, and total durations are not negative.
- The kernel headers that define KVM_MAX_VCPUS, the SINT bits and the TSC page layout are not part of this model; their values are constants of the modules, and KVM_MAX_VCPUS is a parameter of at most 4096.
