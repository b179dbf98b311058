# Models of the OS course simulators

Four programs of the repository are modelled and their main properties proved, each once as a
specification on values and once in the program's own form, with arrays, pointers and loops.

**Virtual memory with copy-on-write and a TLB (os-pa3).** `VmModel` says what each command does to
page tables, reference counts, TLB, process list and page contents, `VmLoop` when the command loop
ends. `VmMachine` is the simulator on arrays, directories behind pointers and loops, proved to
compute it. `VmEager` is the reference: a machine that copies every page at fork and has no TLB.
`VmInvariant`, `VmTransparency`, `VmResults` and `VmCapacity` prove that the two cannot be told
apart on guarded traces, and what follows; `VmExact` that off them some continuation does tell them
apart; `VmTraces` reaches each failure from boot.

**Tick-driven scheduling with resources (os-pa2).** `SchedModel` is the loop with its eight
policies; one iteration is `Tick`. `SchedMachine` is the loop on process and resource objects.
`SchedInvariant` and `SchedStep` prove what every iteration keeps, `SchedDispatch` whom each policy
dispatches, `SchedWaiting` whom a release wakes and in what order, `SchedRuns` that the loop ends
and how, `SchedClaims` that claims are held exactly for their time. What each policy is for is in
`SchedPriority` (PIP), `SchedInherit` (PIP with nested resources), `SchedCeiling` (PCP),
`SchedAging`, `SchedSjf`, `SchedStcf`, `SchedPreemptive`, `SchedPrivate` and `SchedTurns`;
`SchedTraces` reaches the failures from loaded scripts.

**The intrusive circular list (list_head.h)** that both simulators queue their processes on:
`IntrusiveList` proves that pointer writes are sequence operations. Each method may write only nodes
of the lists it names, so every other list stays as it is.

**Alias expansion of the shell (os-pa1).** `AliasModel` holds words, definitions and expansion on
values; `AliasShell` works in place on value buffers and on the array of token pointers.

## How the code is read

The model follows the code, also where comments and README of the repository say otherwise.

- `insert_tlb` matches VPN and rw (os-pa3/pa3.c:100), its contract VPN alone (os-pa3/pa3.c:89-90,
  os-pa3/README.md:48). Both are modelled, as the modes `Coded` and `Documented`; `Off` is the
  simulator without `-t`. Transparency is exact for all three: where the guard holds, outcome and view
  are the eager machine's and the invariant is kept (`VmTransparency.StepAgrees`); where it does not,
  a continuation has other outcomes (`VmExact.GuardIsExact`). A single command may still look right
  without its guard, as a write of the value already there does on a full memory.
- The removal search in `free_page` does not advance (os-pa3/pa3.c:191-196): the outcome `Hang`.
  `Documented` advances. Removal shifts later entries down; os-pa3/README.md:46 asks for slot reuse.
- On a full memory the fault handler reports success and has lost a reference
  (os-pa3/pa3.c:243-247). A write to an unmapped page works on frame 0, or on a null directory
  (os-pa3/pa3.c:233-234). `access vpn w` asks for both bits (os-pa3/vm.c:193-207), which the fault
  handler never serves. All three are modelled, and excluded exactly by the guard.
- Switching to the pid of the current process forks a second process with that pid. The eager machine
  does the same.
- Round robin and STCF put a blocked process on the ready queue (os-pa2/pa2.c:267-268, 304-305). The
  exact condition is `SchedPreemptive.DispatchIff`.
- With several resources, exact inheritance fails at a release that resets the priority
  (os-pa2/pa2.c:532), at the take of a free resource with more important waiters, and at a raise
  of an owner that is itself blocked. Each has its exact condition: `SchedInherit.ReleaseInherits`,
  `TakeInherits` and `WaitInherits`.
- The ceiling fails at the same reset (os-pa2/pa2.c:479), exactly when the process keeps another
  resource: `SchedCeiling.ReleaseCapped`, and `TickCeilingIff` for an iteration.
- Aging has no cap (os-pa2/pa2.c:423); os-pa2/README.md:72 names MAX_PRIO. `SchedAging.PrioritiesBounded`
  says how far it goes.
- The word counts are an array of 33 (os-pa1/pa1.c:42); os-pa1/README.md:123 asks for any number of
  aliases. `DefineAlias` reports a count that has no place, where the C code writes it.
- `alias foo` without a value stores an alias of no words. Expanding it before the last token copies
  the last token over the others and frees it. `ExpandTokens` reports the read of the freed string that
  follows, and a write behind the token array, where the C code goes on.

A script is well formed when every lifespan and duration is at least 1 and every claim ends within the
lifespan. "One at a time" means that no two claims of a process overlap. Claims are taken in the order
of their ages, those of one age as they stand in the script.

## Model

| member | source | states |
|---|---|---|
| VmMachine.Machine.constructor | os-pa3/vm.c:38-72 | At boot the current process has pid 0 and no directory, every count is zero and the TLB is empty: the state `Boot`, in memory that no two processes share. |
| VmMachine.Machine.LookupTlb | os-pa3/pa3.c:67-80 | The sentinel scan ends inside the array and returns the first entry for the VPN whose rw is at least the one asked for, or misses. |
| VmMachine.Machine.InsertTlb | os-pa3/pa3.c:94-111 | Overwrites the first entry that matches VPN and rw as coded (VPN alone as documented), else appends and moves the sentinel; reports when the sentinel would leave the array. |
| VmMachine.Machine.ShiftTlb | os-pa3/pa3.c:199-208 | Removing entry k by shifting leaves exactly the other entries in their order, followed by the sentinel. |
| VmMachine.Machine.RemoveTlb | os-pa3/pa3.c:191-209 | The removal takes out the first entry for the VPN; as coded the search never ends as soon as the first entry is for another VPN, which is reported. |
| VmMachine.Machine.AllocPage | os-pa3/pa3.c:130-164 | Maps the VPN to the free frame of the smallest number, counted once, with rw saved in private, creating the directory if need be; -1 and no change when no frame is free. |
| VmMachine.Machine.FreePage | os-pa3/pa3.c:176-209 | Drops one reference, clears the PTE and removes the TLB entry; crashes on a null directory, hangs where the search never ends. |
| VmMachine.Machine.CopyPage | os-pa3/pa3.c:243-247 | Copy-on-write as coded: the old count drops, a frame is allocated, contents are copied, rw becomes 3, also when no frame was free. |
| VmMachine.Machine.HandlePageFault | os-pa3/pa3.c:228-251 | Only exact write faults on pages not allocated read-only are handled: in place when the frame is counted once, by copying when it is counted twice or more. |
| VmMachine.Machine.ForkDirectory | os-pa3/pa3.c:306-319 | For every array of PTEs: each valid entry is counted once more in its frame, write-protected in the parent with its rw saved, and copied; the child gets only the valid entries. |
| VmMachine.Machine.Fork | os-pa3/pa3.c:299-321 | After the nested loops the child has its own directories holding the protected parent entries, and each count has grown by the number of entries mapping that frame. |
| VmMachine.Machine.ForkChild | os-pa3/pa3.c:294-328 | The parent goes to the tail of the list, the child runs, and no directory is reachable from two processes or two outer slots. |
| VmMachine.Machine.SwitchTo | os-pa3/pa3.c:322-328 | An existing process leaves the list at its place and the current one joins at the tail; nothing else moves. |
| VmMachine.Machine.FlushTlb | os-pa3/pa3.c:330-333 | Every valid TLB entry is invalidated. |
| VmMachine.Machine.SwitchProcess | os-pa3/pa3.c:275-336 | Switches to the first process with the pid, forks the current one when there is none, and flushes the TLB. |
| VmMachine.Machine.Translate | os-pa3/vm.c:94-137 | TLB first when it is on; else the walk, which fails on a null directory, an invalid PTE or a missing write bit, and caches the PTE's own rw. |
| VmMachine.Machine.AccessMemory | os-pa3/vm.c:150-191 | The do/while loop makes at most two translations and two fault handler calls, and computes the unrolled access. |
| VmMachine.Machine.AllocCommand | os-pa3/vm.c:209-231 | Refuses a VPN that translates for reading, and a full memory. |
| VmMachine.Machine.FreeCommand | os-pa3/vm.c:233-246 | Refuses a VPN that does not translate for reading, else frees it. |
| VmMachine.MakeRwFlag | os-pa3/vm.c:193-207 | The flag always holds the read bit; it holds the write bit if and only if the text has a `w` or `W`. |
| VmMachine.Machine.Execute | os-pa3/vm.c:344-381 | One command on arrays and pointers has the outcome of the specification step and, unless it crashes or hangs, its state; after an overrun too, where the code has written the entry already. |
| VmMachine.Machine.Simulate | os-pa3/vm.c:324-388 | The command loop computes the run of the whole trace; every command has its outcome unless the last outcome is that of a refused alloc, a crash, a hang or an overrun, and no earlier one is; unless it crashed or hung the state is the run's. |
| VmMachine.Machine.SimulateGuarded | os-pa3/vm.c:324-388 | The machine on arrays and pointers, on a trace that meets the guard, gives the outcomes and the final view of the machine that copies eagerly. |
| VmMachine.GuardedNeverDies | os-pa3/vm.c:150-246 | A guarded trace never crashes, hangs or overruns the TLB array. |
| VmLoop.RunGoesOn | os-pa3/vm.c:344-388 | A command that is done, and a free, an access or a switch that is refused, is followed by the outcomes of the rest of the trace; a refused alloc ends the run. |
| VmLoop.EagerGoesOn | os-pa3/vm.c:344-388 | The same of the reference machine, which never crashes, hangs or overruns. |
| VmLoop.EveryCommandAnswered | os-pa3/vm.c:363-376 | A run has as many outcomes as the trace has commands, unless its last outcome is that of a refused alloc, a crash, a hang or an overrun; no earlier outcome is one of these. |
| VmLoop.EagerCommandsAnswered | os-pa3/vm.c:363-376 | The same of the reference machine, where only a refused alloc can be the last before the end of the trace. |
| VmInvariant.SetEntryIsUpdate | os-pa3/pa3.c:135-162 | The two-level table (vpn/16, vpn%16) is one flat map: storing one VPN changes that entry and no other. |
| VmInvariant.BootIsGood | os-pa3/vm.c:38-72 | The invariant (counts, sharing, permissions, TLB) holds at boot. |
| VmInvariant.Repoint | os-pa3/pa3.c:130-251 | Whatever way the code changes one PTE of the current process, if the counts follow and the new frame was free or unchanged, the global invariant over all processes is kept. |
| VmInvariant.RepointView | os-pa3/pa3.c:130-251 | The same change alters what processes see at that VPN of that process only. |
| VmTransparency.LookupIsCoherent | os-pa3/pa3.c:67-80 | In a good state a TLB hit is permitted by the page table and gives its frame; a hit for a write comes only from a page that is writable now. |
| VmTransparency.TranslateIsWalk | os-pa3/vm.c:94-137 | Even between a copy and the retry, translation succeeds exactly when the page table permits the access, with the page table's frame; and the TLB is coherent again: every entry has the frame of its PTE, and the rw of its PTE with the documented insertion, at most that as coded. |
| VmTransparency.AllocAgrees | os-pa3/vm.c:209-231 | Alloc behaves as on the eager machine if and only if its guard holds (a free frame for a new page, TLB room for a refused one). |
| VmTransparency.FreeAgrees | os-pa3/vm.c:233-246 | Free behaves as on the eager machine if and only if, with the TLB as coded, the TLB is empty or the page's only entry is first in it. |
| VmTransparency.PermittedAgrees | os-pa3/vm.c:94-191 | A permitted access reads or writes the page the eager machine would, if and only if the TLB has room. |
| VmTransparency.UnmappedAgrees | os-pa3/pa3.c:233-248 | An access to an unmapped page is refused as it should, except a write whose directory is null or that finds frame 0 mapped: exactly then it is not. |
| VmTransparency.UpgradeAgrees | os-pa3/pa3.c:239-242 | The last sharer upgrades in place: no count and no other process changes, the page keeps its frame; and the write agrees with the eager machine if and only if the TLB has room. |
| VmTransparency.CopyIsPrivate | os-pa3/pa3.c:243-247 | With a free frame, the copy is writable, counted once, in a frame other than the shared one, with its contents, and nobody sees a difference. |
| VmTransparency.CopyAgrees | os-pa3/pa3.c:228-251 | A copying write agrees with the eager machine if and only if the TLB has room and, as coded, holds no entry for the page. |
| VmTransparency.StaleEntryStays | os-pa3/pa3.c:94-111 | As coded, a read-only entry cached before the copy survives it and still answers reads with the frame that was left. |
| VmTransparency.ExhaustedDisagrees | os-pa3/pa3.c:243-247 | With no free frame the handler reports success, the reference count of the shared frame is then one too low, and the command does not agree (what is then seen: `VmExact.ExhaustedIsSeen`). |
| VmTransparency.AccessAgrees | os-pa3/vm.c:150-191 | Every access of every good state has the eager outcome and view and keeps the invariant if and only if the guard of its branch holds. |
| VmTransparency.ProtectedEntries | os-pa3/pa3.c:299-321 | After a fork parent and child translate every VPN alike, to the protected entry of the parent. |
| VmTransparency.ForkAgrees | os-pa3/pa3.c:292-328 | Forking by sharing looks exactly like forking by copying every page, and keeps the invariant. |
| VmTransparency.ScheduleAgrees | os-pa3/pa3.c:277-290 | Switching to an existing process agrees with the eager machine and keeps the invariant. |
| VmTransparency.StepAgrees | os-pa3/vm.c:324-388 | Main result: one command has the eager machine's outcome, leads to its view and keeps the invariant, all three, if and only if its guard holds; for every good state and command. |
| VmTransparency.RunAgrees | os-pa3/vm.c:324-388 | Copy-on-write is transparent over every guarded trace: same outcomes, same final view, invariant kept. |
| VmExact.AllocIsSeen | os-pa3/vm.c:209-231 | Without its guard an alloc has another outcome than on the eager machine at once. |
| VmExact.FreeIsSeen | os-pa3/pa3.c:191-209 | A free without its guard hangs or overruns, or leaves an entry behind through which the freed page is read by the next command. |
| VmExact.AccessIsSeen | os-pa3/vm.c:150-191 | An access without its guard has another outcome at once, except the two cases of the next rows. |
| VmExact.StaleIsSeen | os-pa3/pa3.c:94-111 | After a copying write past a cached entry, a second write and a read of the page show the difference. |
| VmExact.ExhaustedIsSeen | os-pa3/pa3.c:243-247 | With no free frame the write lands in the frame that another process still maps, and a continuation that switches to it reads the difference. |
| VmExact.GuardIsExact | os-pa3/vm.c:324-388 | Observational exactness: for every good state and command without its guard there is a continuation on which the outcomes differ from the eager machine's. |
| VmExact.UnguardedIsSeen | os-pa3/vm.c:324-388 | The same for traces: one that is not guarded has a prefix and a continuation with other outcomes. |
| VmResults.CountsSumToValidPtes | os-pa3/pa3.c:130-189 | In every good state the reference counts add up to the number of valid PTEs over all processes. |
| VmResults.CountsBoundedByProcesses | os-pa3/pa3.c:313-318 | No count exceeds the number of processes, because each process maps a frame at most once. |
| VmResults.TableBounded | os-pa3/vm.h:20-25 | A process maps at most 128 pages, and the TLB of the documentation never holds more than 128 of its 256 entries. |
| VmResults.CachedExactly | os-pa3/pa3.c:83-93 | With the documented insertion, at every command boundary of a guarded trace each cached entry equals the page table: valid, same frame, same rw. |
| VmResults.WriteIsPrivate | os-pa3/pa3.c:228-251 | After a successful write the page's frame is counted once and mapped by nothing else; it is the old frame or was free, and no other frame changed. |
| VmResults.TlbIsTransparent | os-pa3/pa3.c:67-111 | A guarded command with the TLB has the outcome of the machine without it and leaves the same tables, counts, processes and contents. |
| VmResults.RunWithoutTlb | os-pa3/vm.c:103-134 | The same over whole guarded traces. |
| VmResults.DocumentedNeedsNoMore | os-pa3/pa3.c:83-93 | With the insertion contract of the comments the guard asks nothing that running without a TLB does not ask. |
| VmResults.StaleRead | os-pa3/pa3.c:94-111 | As coded: after a copying write to a page that was cached, a read returns the old contents where the eager machine returns what was written. |
| VmResults.StaleTrace | os-pa3/pa3.c:94-111 | From boot, as coded: alloc, fork, read, write 7, read gives 0. |
| VmTraces.NullDirectoryCrashes | os-pa3/pa3.c:233-234 | From boot: a write to page 0 dereferences a null directory; the eager machine refuses it. |
| VmTraces.WildWriteSucceeds | os-pa3/pa3.c:233-247 | From boot: alloc 0, then a write to the unmapped page 1 succeeds; the outcomes of that run are not the eager machine's. |
| VmTraces.BothBitsRefused | os-pa3/vm.c:193-207 | From boot: alloc, fork, and an access asking for both bits is refused though the page is writable; the run has other outcomes than the eager one. |
| VmTraces.ParentReadsChild | os-pa3/pa3.c:243-247 | From boot: 128 allocs, fork, write in the child; the parent then reads what the child wrote, in a run with other outcomes than the eager one. |
| VmTraces.FreeHangs | os-pa3/pa3.c:191-196 | From boot, as coded: alloc 0, alloc 1, read 0, read 1, free 1 never ends. |
| VmTraces.FreedPageIsRead | os-pa3/pa3.c:191-209 | From boot, as coded: a page read, then written in place, then freed is read successfully once more, in a run with other outcomes than the eager one. |
| VmTraces.TlbOverruns | os-pa3/pa3.c:94-111 | From boot, as coded: 128 pages read and 128 written by one process; the last write leaves the TLB array. |
| VmCapacity.CountsSumToHeld | os-pa3/pa3.c:130-189 | The reference counts add up to the number of pages the eager machine holds. |
| VmCapacity.CapacityIsGuard | os-pa3/pa3.c:140-149 | If the eager machine holds at most 128 pages before and after a plain command, the lazy one finds the frame it needs: the guard of the machine without a TLB holds, in every mode. |
| VmCapacity.LazyNeedsNoMoreFrames | os-pa3/vm.c:324-388 | From boot, without the TLB or with the documented one, any plain trace that eager copying can run in 128 frames runs with the same outcomes and view; a condition on the reference machine alone. |
| VmCapacity.TidyNeedsNoMore | os-pa3/pa3.c:94-111 | As coded, a command that frees pages in the order of first touch and writes no page it has only read asks no more of the TLB than running without one. |
| VmCapacity.CodedNeedsNoMoreFrames | os-pa3/vm.c:324-388 | From boot with the TLB as coded: such a trace, if eager copying can run it in 128 frames, runs with the same outcomes and view; again a condition on the reference machine alone. |
| SchedMachine.Simulator.ForkOnSchedule | os-pa2/sched.c:232-247 | Moves every due process of the fork queue to the ready queue, in order, and leaves the others. |
| SchedMachine.Simulator.FifoSchedule | os-pa2/pa2.c:146-189 | Keeps a runnable current process, else detaches the head of the ready queue: the choice of `SchedDispatch.FifoRule`. |
| SchedMachine.Simulator.SjfSchedule | os-pa2/pa2.c:203-229 | Keeps a runnable current process, else the scan finds the first of the shortest lifespans. |
| SchedMachine.Simulator.StcfSchedule | os-pa2/pa2.c:239-275 | The scan finds the first of the least remaining times below the current one; requeues whoever has life left, blocked or not. |
| SchedMachine.Simulator.RrSchedule | os-pa2/pa2.c:290-309 | Takes the head and requeues whoever has life left, blocked or not. |
| SchedMachine.Simulator.PrioSchedule | os-pa2/pa2.c:361-394 | Keeps a strictly more important runnable current process, else takes the first of the highest priorities and requeues the current one. |
| SchedMachine.Simulator.BoostAndScan | os-pa2/pa2.c:420-427 | The loop that raises every ready process while it compares finds the first of the highest raised priorities. |
| SchedMachine.Simulator.PaSchedule | os-pa2/pa2.c:406-445 | Raises all ready processes by one, chooses as the priority scheduler, and resets the chosen one to its original priority: the choice of `SchedDispatch.AgingRule`. |
| SchedMachine.Simulator.AcquireCallback | os-pa2/pa2.c:59-83 | Takes a free resource (raising to the ceiling under PCP), else blocks at the tail of its queue (raising the owner under PIP), as `SchedWaiting.BlocksBehind` and `BlockedIsLast` have it; pa2.c:321-335, 456-469 and 506-522 for the other policies. |
| SchedMachine.Simulator.ReleaseCallback | os-pa2/pa2.c:524-547 | Resets the priority under PCP and PIP, frees the resource and wakes at most one waiter: the first, or the first of the highest priority, as `SchedStep.ReleaseFacts` has it; pa2.c:94-130, 337-359 and 471-494 for the other policies. |
| SchedMachine.Simulator.RunCurrentAcquire | os-pa2/sched.c:274-295 | Acquires the claims due at the present age in order and stops at the first that blocks. |
| SchedMachine.Simulator.RunCurrentRelease | os-pa2/sched.c:300-318 | Counts every held claim down, and releases and removes those that reach zero, scanning while the list shrinks. |
| SchedMachine.Simulator.ExitProcess | os-pa2/sched.c:252-269 | Ends a process; its requirements are the three assertions of the code. |
| SchedMachine.Simulator.DispatchNext | os-pa2/sched.c:330-349 | Fork, schedule and retire; from a state of the invariant no assertion of __exit_process fails. |
| SchedMachine.Simulator.RunCurrentProcess | os-pa2/sched.c:361-384 | The chosen process acquires, ages and releases, or gets blocked; the owner assertion of every release holds. |
| SchedMachine.Simulator.Iterate | os-pa2/sched.c:327-388 | One turn of the loop computes `Tick`, keeps the invariant and reports the end exactly when nothing is left. |
| SchedMachine.Simulator.DoSimulation | os-pa2/sched.c:323-389 | The `while (true)` loop ends, in the state the specification ends in: always under six policies, under round robin and STCF when no dispatch finds a blocked current process before a ready one; processes that take resources in ascending order have then all exited at age = lifespan. |
| SchedMachine.LoadIsLoaded | os-pa2/sched.c:156-227 | The state the simulator is constructed in, for a well-formed script, is a loaded one and satisfies the invariant the loop needs. |
| SchedModel.Best | os-pa2/pa2.c:373-380 | The scan with `>` ends at the first of the largest keys. |
| SchedModel.Shortest | os-pa2/pa2.c:257-264 | The scan with `<` ends at the first of the least remaining times below the bound, or nowhere. |
| SchedInvariant.LoadedInv | os-pa2/sched.c:156-227 | A well-formed script is loaded into a state of the invariant. |
| SchedInvariant.ForkKeeps | os-pa2/sched.c:232-247 | Forking keeps places, ownership and wakeups, and only appends to the ready queue. |
| SchedDispatch.ForksWhatIsDue | os-pa2/sched.c:232-247 | The fork scan, over a list that shrinks under it, moves exactly the processes whose start has come, in their order, to the tail of the ready queue; the others stay in theirs. |
| SchedInvariant.ScheduleChoice | os-pa2/pa2.c:146-445 | Each blocking-aware schedule function keeps the current process or takes one ready process, requeueing the current one exactly when it can still run. |
| SchedDispatch.FifoRule | os-pa2/pa2.c:146-189 | FIFO, with or without claims: a current process that is not blocked and has life left is dispatched again; otherwise the head of the ready queue runs. |
| SchedDispatch.SjfRule | os-pa2/pa2.c:203-229 | SJF, with or without claims: such a process is dispatched again; otherwise the first of the shortest lifespans runs. |
| SchedDispatch.Uninterrupted | os-pa2/pa2.c:165-215 | Over runs of FIFO and SJF: who has started ages by one tick an iteration, whatever it claims and whoever arrives, until it gets blocked or its life is over. |
| SchedDispatch.StcfRule | os-pa2/pa2.c:239-275 | STCF, where it suits: the current process goes on unless somebody ready has strictly less time to completion; otherwise the first of those with the least runs, the current one waiting at the tail. |
| SchedDispatch.RrRule | os-pa2/pa2.c:290-309 | Round robin, where it suits: the head of the ready queue runs and a current process with life left goes to the tail. |
| SchedDispatch.PriorityRule | os-pa2/pa2.c:361-394 | Priority, PCP and PIP: the current process goes on if and only if it can and is strictly more important than everybody ready; otherwise the first of the most important runs, the current one waiting at the tail. |
| SchedDispatch.AgingRule | os-pa2/pa2.c:420-442 | Aging: the current process goes on if and only if it can and its priority exceeds every ready one by two or more, since they gain one first; otherwise the first of the most important runs. |
| SchedDispatch.AgingPriorities | os-pa2/pa2.c:420-441 | In such a dispatch everybody ready gains one priority, except that the one chosen gets its original priority back; nobody else changes. |
| SchedInvariant.DispatchKeeps | os-pa2/sched.c:330-365 | After dispatching, the chosen process is alive and running, and when nobody is chosen nobody was ready. |
| SchedInvariant.FinishedIsClean | os-pa2/sched.c:252-261 | A process at its lifespan holds nothing and has nothing to acquire, so the exit assertions cannot fail. |
| SchedStep.RunningIsDetached | os-pa2/sched.c:364-365 | The process about to run is on no list: the assertion of the loop. |
| SchedStep.AcquireKeeps | os-pa2/sched.c:274-295 | The acquire loop keeps the invariant, whether it succeeds or blocks. |
| SchedStep.ReleaseFacts | os-pa2/pa2.c:337-359 | A release frees the resource and wakes at most one waiter: under FIFO, SJF, STCF and round robin the first one, under Priority, aging, PCP and PIP the first of the highest priority; it touches no other process or resource. |
| SchedWaiting.BlockedIsLast | os-pa2/pa2.c:59-83 | Under every policy the process that gets blocked in an iteration stands behind all who were waiting for the resource already, and the resource has an owner; pa2.c:332, 466 and 519 for the other callbacks. |
| SchedWaiting.TickMoves | os-pa2/sched.c:274-318 | All that one iteration can do to a resource: nothing; the running process takes it; the running process gets blocked and joins its queue at the tail; or it is freed, and if anyone waits exactly one leaves for the ready queue, the first or, where priorities count, the first of the highest priority. |
| SchedWaiting.OrderOfArrival | os-pa2/pa2.c:59-83 | Over runs of all eight policies: two processes that go on waiting for one resource keep their order. |
| SchedWaiting.FirstComeFirstServed | os-pa2/pa2.c:94-130 | Over runs of all eight policies: a process is woken only after everyone who waited before it; under Priority, aging, PCP and PIP the one exception is a process strictly more important than the one it passes, so equals are woken in order of arrival. |
| SchedWaiting.PrioritiesStand | os-pa2/pa2.c:146-394 | Over runs of FIFO, SJF, STCF, round robin and Priority no priority ever changes. |
| SchedWaiting.RunsPromise | os-pa2/pa2.c:337-359 | Over runs of Priority and aging: while a free resource is waited for, a ready process is due to take it whose original priority is at least that of everyone left waiting, also where another process takes the resource in between. |
| SchedWaiting.LoadedPromises | os-pa2/pa2.c:337-359 | That holds in every reachable state of a loaded script. |
| SchedStep.GiveBackKeeps | os-pa2/sched.c:305-316 | Releasing one used-up claim keeps the invariant between two claims of the same tick. |
| SchedStep.ReleaseKeeps | os-pa2/sched.c:300-318 | The release loop ends in a state of the invariant. |
| SchedStep.TickKeeps | os-pa2/sched.c:327-388 | One iteration of any blocking-aware policy keeps: every live process in exactly one place that its status names, ownership equal to holding lists, claim accounting, and no lost wakeup (pa2.c:94-130, 337-359). |
| SchedStep.RunsKeep | os-pa2/sched.c:323-389 | So does every run. |
| SchedRuns.TickDecreases | os-pa2/sched.c:323-389 | The lexicographic measure (life left, unblocked processes, ticks to the last fork) decreases in every iteration that does not end the loop. |
| SchedRuns.EndedWaits | os-pa2/sched.c:351-356 | When the loop ends, whoever has not exited waits for a resource whose owner is itself blocked. |
| SchedRuns.EndedInCycle | os-pa2/sched.c:351-356 | A deadlock is the only other end: if somebody is left, there is a cycle of blocked processes, each waiting for a resource the next one owns. |
| SchedRuns.TickObeys | os-pa2/sched.c:274-318 | Every iteration keeps each of four rules on the claims of a process: none overlap; those that do are for different resources and end together; they are taken in ascending order; or each resource has one user. |
| SchedRuns.RunsObey | os-pa2/sched.c:323-389 | So does every run. |
| SchedRuns.SinglesObey | os-pa2/sched.c:156-227 | Scripts whose claims do not overlap obey the ascending and the end-together rule too. |
| SchedRuns.EndedExited | os-pa2/sched.c:351-356 | With resources taken in ascending order there is none: every process has exited at its lifespan, with every claim acquired and released. |
| SchedRuns.RunsEnd | os-pa2/sched.c:323-389 | Every run that suits its policy ends; where each process takes its overlapping claims in ascending order of resources, with every process exited. |
| SchedClaims.TickKept | os-pa2/sched.c:274-318 | One iteration loses or doubles no claim that has time left, and gives no held one back to the pending list. |
| SchedClaims.HeldUntilItsEnd | os-pa2/sched.c:304-311 | After an iteration a held claim is still held, and its resource owned, if and only if its owner's age is below at + duration. |
| SchedClaims.ClaimOverRun | os-pa2/sched.c:323-389 | Over every run of a loaded script, however often preempted: a claim is pending before its age, held with its resource owned until at + duration, gone from then on, and at its age itself pending or held. |
| SchedClaims.OpenClaimsAreTheScripts | os-pa2/sched.c:323-389 | No claim is lost or doubled: those of a process with time left are, counted, those of its script. |
| SchedPriority.DispatchTop | os-pa2/pa2.c:361-394 | Under Priority, PCP and PIP the process dispatched is at least as important as every ready one. |
| SchedPriority.TickPips | os-pa2/pa2.c:506-547 | One iteration keeps exact inheritance. |
| SchedPriority.RunsInherit | os-pa2/pa2.c:506-547 | In every reachable state of a one-at-a-time PIP run: non-owners have their original priority, an owner the maximum of its own and its waiters', and a free awaited resource is reserved by a ready process at least as important as all its waiters. |
| SchedPriority.NoInversion | os-pa2/pa2.c:361-394 | While a process waits for an owned resource, whoever is dispatched is at least as important as it; if that process holds nothing, by its original priority. |
| SchedPriority.NeverInverted | os-pa2/sched.c:323-389 | Both from a loaded script: exact inheritance in every reachable state; and while anyone waits for an owned resource, whoever is dispatched is at least as important, by its original priority if it holds nothing. |
| SchedCeiling.OwnerStays | os-pa2/pa2.c:456-494 | Under the ceiling an owner is dispatched again until it releases. |
| SchedCeiling.AcquireIff | os-pa2/pa2.c:456-469 | Under the ceiling the acquires of an iteration succeed if and only if what is due is for different resources, none of which the process holds; it then holds just that in addition, at the ceiling. |
| SchedCeiling.ReleaseCapped | os-pa2/pa2.c:471-494 | A release keeps the ceiling (nobody waits; an owner is current and at MAX_PRIO) if and only if the process owns no other resource. |
| SchedCeiling.ReleaseCeilingIff | os-pa2/sched.c:300-318 | The release loop keeps it if and only if all the claims held end in this tick, or none does. |
| SchedCeiling.TickCeilingIff | os-pa2/sched.c:327-388 | An iteration keeps it if and only if the process dispatched is due nothing it has or is due twice, and of what it holds or is due all ends in this tick, or nothing. |
| SchedCeiling.TickCeiling | os-pa2/sched.c:323-389 | One iteration of processes whose overlapping claims are for different resources and end together keeps the ceiling, and its acquires succeed. |
| SchedCeiling.RunsUnderCeiling | os-pa2/sched.c:323-389 | So does every PCP run of such processes with original priorities below MAX_PRIO. |
| SchedCeiling.NobodyWaits | os-pa2/sched.c:323-389 | From a loaded script of that kind, which includes one resource at a time: at every moment all wait queues are empty, an owner is the current process, and the next process gets all it asks for. |
| SchedInherit.ReleaseInherits | os-pa2/pa2.c:524-547 | With any number of resources held, a release keeps exact inheritance if and only if nobody above the releasing process's own priority waits for a resource it keeps. |
| SchedInherit.TakeInherits | os-pa2/pa2.c:506-512 | Taking a free resource keeps it if and only if nobody above the taker waits for that resource. |
| SchedInherit.WaitInherits | os-pa2/pa2.c:513-522 | Blocking on an owned resource keeps it if and only if the owner is not raised, or the owners it waits for in turn are at least as important as the raise. |
| SchedInherit.TickInherits | os-pa2/sched.c:327-388 | An iteration whose acquires and releases meet these conditions keeps it. |
| SchedInherit.FairRunsInherit | os-pa2/sched.c:323-389 | So does every such run. |
| SchedInherit.FairScriptsInherit | os-pa2/sched.c:156-227 | In particular from a loaded script. |
| SchedInherit.SinglesInherit | os-pa2/pa2.c:506-547 | For one-at-a-time processes this is the inheritance of `SchedPriority`, in both directions. |
| SchedTraces.ReleaseForgets | os-pa2/pa2.c:524-534 | From a loaded script with two nested claims: after four ticks the owner is back at its own priority while a more important process waits for what it still holds. |
| SchedTraces.CeilingForgets | os-pa2/pa2.c:471-494 | From a loaded script in which one process gives an inner claim back first: after two ticks under PCP a more important process waits for what it still holds. |
| SchedAging.TickAged | os-pa2/pa2.c:406-445 | Under aging only ready processes are above their original priority; the current process never is. |
| SchedAging.PatienceRunsOut | os-pa2/pa2.c:406-445 | A ready process that is not chosen stays ready and comes strictly nearer to being chosen. |
| SchedAging.NoStarvation | os-pa2/pa2.c:406-445 | Every ready process is dispatched before its patience runs out. |
| SchedAging.StarvationBound | os-pa2/pa2.c:406-445 | The bound: a ready process is dispatched within max(0, P - a) + n iterations, for priority a, largest original priority P and n processes. |
| SchedAging.RunsAge | os-pa2/sched.c:323-389 | The conditions of the bound hold in every reachable state of a run under aging. |
| SchedAging.NobodyStarves | os-pa2/sched.c:323-389 | From a loaded script: whoever is ready at any time of the run is dispatched within the bound. |
| SchedAging.PrioritiesBounded | os-pa2/pa2.c:406-445 | How far aging goes without its cap: from a loaded script no priority reaches P + n, so none passes MAX_PRIO when P + n is at most one above it. |
| SchedAging.AgingPassesCap | os-pa2/pa2.c:420-427 | And it does pass it: of any two processes that start at once with MAX_PRIO one is above it after a tick. |
| SchedTraces.TwinsPassCap | os-pa2/pa2.c:420-427 | On a concrete loaded script. |
| SchedSjf.SortedIsOptimal | os-pa2/pa2.c:203-229 | No permutation of the jobs has a smaller sum of completion times than a nondecreasing one. |
| SchedSjf.SjfOrderIsStable | os-pa2/pa2.c:217-227 | Repeated picks order the ready queue by lifespan, equal ones as they were. |
| SchedSjf.Burst | os-pa2/pa2.c:213-215 | A process that has started runs to its end without interruption. |
| SchedSjf.CompletesInOrder | os-pa2/sched.c:323-389 | In a batch without resources each process completes exactly at the sum of the lifespans up to its own in that order, and not before. |
| SchedSjf.SjfIsOptimal | os-pa2/sched.c:323-389 | Main result for SJF: completion in stable nondecreasing order, with the least possible sum of completion times. |
| SchedSjf.FinishSumIsCompletionSum | os-pa2/sched.c:323-389 | The sum minimised is the sum of the ticks at which the simulator's processes complete. |
| SchedSjf.LoadedBatch | os-pa2/sched.c:156-227 | A loaded script whose processes start at tick 0 and claim nothing is such a batch. |
| SchedPreemptive.DispatchIff | os-pa2/pa2.c:239-309 | Round robin and STCF as coded hand on a sound state if and only if nothing is ready, or the current process can run, or there is none that is blocked (and for STCF something ready needs less than 1e8 ticks). |
| SchedPreemptive.BlockedRequeued | os-pa2/pa2.c:267-308 | Otherwise a blocked process stands in a wait queue and also on the ready queue, or runs. |
| SchedPreemptive.SuitingRunsKeep | os-pa2/sched.c:323-389 | Runs in which the condition holds at every dispatch keep the invariant. |
| SchedTurns.ClaimlessAlong | os-pa2/pa2.c:239-309 | Scripts without resources suit every policy at every dispatch, so their runs end with everyone exited under round robin and STCF too. |
| SchedPrivate.PrivateAlong | os-pa2/pa2.c:239-309 | So do loaded scripts in which no resource is claimed by two processes, nor twice at a time by one. |
| SchedPrivate.PrivateEnds | os-pa2/sched.c:323-389 | In their runs nobody ever waits and everyone exits at its lifespan, under all eight policies. |
| SchedTraces.BlockedIsReady | os-pa2/pa2.c:267-308 | From a loaded script of two processes, round robin and STCF: after two ticks the blocked process is put on the ready queue while it stands in the wait queue. |
| SchedTurns.StcfRunsShortest | os-pa2/pa2.c:239-275 | STCF runs a process of least remaining time among all that could run, and keeps the current one on a tie. |
| SchedStcf.ServingKeepsAhead | os-pa2/pa2.c:239-275 | The exchange argument: serving a process of least remaining time never falls behind a machine that serves any other, whichever processes are left out of account. |
| SchedStcf.ArrivalsKeepAhead | os-pa2/sched.c:232-247 | Nor do processes that start on both machines change who is ahead. |
| SchedStcf.StcfServes | os-pa2/sched.c:327-388 | Every iteration under STCF serves, among the processes that have started, one with the least life left, and idles only when all of those are done. |
| SchedStcf.StcfFinishesMost | os-pa2/sched.c:323-389 | On any loaded script without resources, after every number of ticks no preemptive plan has fewer unfinished processes than STCF. |
| SchedStcf.StcfBeatsAll | os-pa2/sched.c:323-389 | In particular no policy of the simulator has, at any tick. |
| SchedStcf.StcfIsOptimal | os-pa2/sched.c:323-389 | Main result for STCF: with any start times, whatever plan lets everyone complete, under STCF everyone completes too, with no larger sum of completion times. |
| SchedTurns.RrWaitIsPosition | os-pa2/pa2.c:290-309 | Under round robin the process at position k of the ready queue runs in exactly k iterations' time, whatever is forked meanwhile. |
| SchedTurns.PrioWaitIsEquals | os-pa2/pa2.c:361-394 | Turns among equals under the priority policy: with nobody more important alive and no claims, a ready process with n equals before it on the queue runs in exactly n iterations' time. |
| SchedTurns.FifoWaitIsBacklog | os-pa2/pa2.c:146-189 | Under FIFO the process at position k starts exactly when the current one and the k ahead of it have lived their remaining time. |
| IntrusiveList.ListIsUnique | os-pa2/list_head.h:31-33 | A head stands for one sequence: pointers determine entries and order. |
| IntrusiveList.Node.constructor | os-pa2/list_head.h:35-36 | A new node is an empty list. |
| IntrusiveList.Empty | os-pa2/list_head.h:192-195 | True if and only if the list has no entry. |
| IntrusiveList.IsLast | os-pa2/list_head.h:182-186 | True if and only if the entry is the last one. |
| IntrusiveList.IsSingular | os-pa2/list_head.h:234-237 | True if and only if the list has exactly one entry. |
| IntrusiveList.Insert | os-pa2/list_head.h:53-61 | Four pointer writes insert the entry between two neighbours of any ring. |
| IntrusiveList.AddTail | os-pa2/list_head.h:85-88 | Appends; writes only the entry, the head and the last node. |
| IntrusiveList.Add | os-pa2/list_head.h:71-74 | Prepends. |
| IntrusiveList.Unlink | os-pa2/list_head.h:97-101 | Linking the neighbours leaves the list without the entry. |
| IntrusiveList.DelInit | os-pa2/list_head.h:148-152 | The entry leaves its list and becomes a list of its own. |
| IntrusiveList.Move | os-pa2/list_head.h:159-163 | Takes an entry out of its list and prepends it to another, or to the same one. |
| IntrusiveList.MoveTail | os-pa2/list_head.h:170-175 | Takes an entry out of its list and appends it to another, or to the same one; both are lists again. |
| IntrusiveList.RotateLeft | os-pa2/list_head.h:220-228 | The first entry becomes the last; an empty list stays empty. |
| IntrusiveList.CutAfter | os-pa2/list_head.h:239-249 | The prefix through the entry and the rest are two lists again, also when nothing is left. |
| IntrusiveList.CutPosition | os-pa2/list_head.h:265-277 | With its three guards: the first k entries move to the target, none when the entry is the head, whatever the target held; an empty list to cut leaves the target untouched. |
| IntrusiveList.CutBefore | os-pa2/list_head.h:293-307 | The entries before the given one move, all of them when it is the head. |
| IntrusiveList.SpliceBetween | os-pa2/list_head.h:309-321 | The entries of one list go between two neighbours of any ring, in order. |
| IntrusiveList.Splice | os-pa2/list_head.h:328-333 | Prepends all entries of another list. |
| IntrusiveList.SpliceTail | os-pa2/list_head.h:340-345 | Appends all entries of another list. |
| IntrusiveList.SpliceInit | os-pa2/list_head.h:354-361 | Prepends and empties the other list. |
| IntrusiveList.SpliceTailInit | os-pa2/list_head.h:371-378 | Appends and empties the other list. |
| AliasModel.WordsOfJoin | os-pa1/pa1.c:118-131 | The words of the joined value are the words that were joined: definition and expansion are inverse. |
| AliasModel.ValueFillsMemory | os-pa1/pa1.c:118-131 | The joined value has one blank between words and none around them, so with its terminator it fills the memory asked for; for a definition without words, and only then, one byte less is asked for than is written. |
| AliasModel.WordsAreWords | os-pa1/pa1.c:192-196 | Splitting yields only non-empty words without blanks. |
| AliasModel.DefinitionTakesEffect | os-pa1/pa1.c:97-131 | A definition makes its key stand for the given words and changes no other token; keys stay distinct. |
| AliasModel.InsertedWordsStay | os-pa1/pa1.c:161-173 | Each token's replacement stands in the result as it is: inserted words are never expanded again. |
| AliasModel.ExpandAppend | os-pa1/pa1.c:161-173 | Expansion is a flat map: it distributes over concatenation. |
| AliasModel.FitsIffResultFits | os-pa1/pa1.c:216-226 | When no alias is empty, the pass stays inside the array if and only if the result and its terminator fit. |
| AliasShell.Strtok | os-pa1/pa1.c:192-196 | One call of strtok yields the next word and overwrites at most the blank behind it. |
| AliasShell.ValueWordCount | os-pa1/pa1.c:186-202 | Returns the number of words and leaves the value string as it was. |
| AliasShell.SpaceBack | os-pa1/pa1.c:216-226 | Moves the tail by count - 1 slots; for a count of zero it smears the last token instead. |
| AliasShell.ReplaceToken | os-pa1/pa1.c:227-254 | Puts fresh copies of the words into the slots, touches no other slot and restores the value string. |
| AliasShell.Shell.FindAliasIndex | os-pa1/pa1.c:204-214 | The first key equal to the token, or none. |
| AliasShell.Shell.DefineAlias | os-pa1/pa1.c:97-131 | Overwrites or appends the key's slot, whose value becomes the arguments joined by single blanks and whose words the arguments; no other slot changes; the count finds its place if and only if the key is known or fewer than 33 are. |
| AliasShell.Shell.ExpandTokens | os-pa1/pa1.c:161-173 | The in-place loop reads only live strings and writes only the array if and only if no token before the last names an alias of no words and every intermediate length fits; it then leaves exactly the flat-map expansion, in live strings, and its terminator. It first leaves the array if and only if a token does not fit before any has vanished. |
| AliasShell.EmptyAliasBreaks | os-pa1/pa1.c:216-226 | A shell on which `alias z` and then `z a` are run reads a freed string, for any two different words. |

## Left out

- Page contents are not in the simulator; the model adds one value per frame, zeroed by alloc and
  copied where the copy is made, because otherwise copying could not be told from sharing.
- New directories and outer tables are all-invalid; the code takes uncleared memory from malloc
  (os-pa3/pa3.c:158, 294, 306).
- VPNs are below 256 by type: alloc and free do not check them, accesses assert it.
- A list search that finds no pid counts as not found; the code then compares a field of the list head.
- After a hang or a crash the machine's state is not specified; after an overrun of the TLB array it is,
  but what the write behind the array hits is not.
- VmCapacity.LazyNeedsNoMoreFrames: not for the TLB as coded, which also depends on what is cached.
- VmCapacity.CodedNeedsNoMoreFrames: a sufficient condition only; the TLB as coded also serves some
  traces that free in another order.
- Ticks, ages, priorities and pids are unbounded; only the decrements of counts and durations wrap at 32 bits.
- Processes are named by their position in the script, exited ones stay in the table, and a claim
  keeps its first duration beside the remaining one, so that accounting can be stated.
- The simulators' queues are sequences with the operations proved in IntrusiveList, not rings of nodes.
- SchedMachine.Simulator.DoSimulation: round robin and STCF only on runs that never have a blocked
  current process and a ready one at a dispatch, because the code then loses track of the blocked one;
  STCF also needs something ready with less than 1e8 ticks left.
- SchedMachine.Simulator.Iterate: requires the same of one iteration.
- SchedMachine.Simulator.DispatchNext: requires the same; a process that is on the ready queue and in a
  wait queue at once would be one list node in two rings, which sequences do not show.
- SchedPriority.RunsInherit: only for one resource at a time; with more the code does not maintain it,
  and SchedInherit says when it does.
- SchedInherit.TickInherits: one direction; within one iteration a later step can repair what an unfair
  one broke, so only the single steps are if-and-only-ifs.
- SchedInherit.FairRunsInherit: one direction, for the same reason.
- SchedInherit.FairScriptsInherit: one direction, for the same reason.
- SchedCeiling.NobodyWaits: for scripts that bundle their claims; SchedCeiling.TickCeilingIff is exact for
  an iteration, not for a run, since an unfair script may never get to its unfair tick.
- SchedTurns.PrioWaitIsEquals: not with claims, and not while somebody more important is alive.
- SchedStcf.StcfIsOptimal: not with resources, where blocking decides more than the choice does, and for
  lifespans below 1e8.
- list_del poisoning, list_replace, container_of, hlist functions and the careful emptiness test.
- AliasShell.Shell.DefineAlias: the write of the terminator into the zero bytes allocated for an empty
  value is not modelled.
- AliasShell.Shell.ExpandTokens: stops where it has read a freed string or would write behind the array.
- fork, exec, pipes, cd, printing, option and script parsing, tokenizers, and the listing of aliases.
