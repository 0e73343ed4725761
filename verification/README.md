# A verified model of mini_kvm

mini_kvm is a small KVM virtual machine monitor. This project models the parts of it
whose behaviour is hard to see from any one function, and proves what they guarantee,
in Dafny 4.11. `dafny verify dfyconfig.toml` checks everything.

| file | what it models |
|---|---|
| `Lifecycle.dfy` | the VM as an interleaving of the main thread, any number of vCPU threads, the clients and signals; each read or write of `state` and `paused` is one step |
| `LockDiscipline.dfy` | safety of whole runs: the pause lock, the start barrier, when SHUTDOWN is final |
| `Overshoot.dfy` | how many times a vCPU can still enter the guest after a pause or shutdown |
| `Snapshot.dfy` | when a pause freezes guest memory, and how it gets there |
| `Endings.dfy` | what ends the VM and what does not: exits of the guest, clients, signals, failed starts |
| `Termination.dfy` | which vCPU threads exit once main has left its loop |
| `Witnesses.dfy` | concrete runs that reach the bounds and show where guarantees end |
| `Paging.dfy` | the page tables against the 4-level walk of section 4.5 of the Intel SDM, volume 3A |
| `Machine.dfy` | the VM object: set-up in the order of `mini_kvm_run`, and the command handlers |
| `DumpText.dfy`, `DumpLoops.dfy`, `DumpReading.dfy`, `DumpCommand.dfy` | the memory dump: its text, its loops with their integer widths, what a reader can tell from the text, and a request from command line to text |
| `DumpRange.dfy`, `DumpBytes.dfy`, `Dump.dfy`, `DumpGuest.dfy` | the offsets and bytes the loops go through, what the text means, and what it shows of the host |
| `Text.dfy`, `Numbers.dfy`, `IntLists.dfy`, `CpuMask.dfy`, `MemSize.dfy` | number spellings, `strtoul`, the list parser, the CPU mask, the memory size |
| `Vectors.dfy`, `Errors.dfy` | the growable vector; the return codes |

## What is proved

**Lifecycle.** A run is a start state and any sequence of enabled steps. With the
repository's own clients, whatever the vCPUs and signals do, main locks and unlocks
`pause_lock` in strict alternation, so it never waits for a lock it holds
(`LocksAlternate`). With arbitrary clients the alternation holds if and only if no PAUSE
arrived with the flag set and no RESUME with the flag clear (`AlternatesExactly`); one
client that sends PAUSE unasked breaks it (`UncheckedPauses`). No vCPU enters the guest or
parks before RUNNING is written (`StartBarrier`). While the VM is not RUNNING each thread
enters `KVM_RUN` at most once, plus once for each time a pause turns into a shutdown
(`Bound`), and two is reached because the loop reads `state` twice (`TwoEntries`). Once
every thread has seen the pause, only main can end it (`FirstChange`), and three own steps
per thread are enough to get there (`PauseSettles`).

The guest ends the VM by exactly the exits that the loop's switch names (`GuestGoesOn`,
`ExitShuts`). A client of the repository that has its last reply has got what it asked for
(`ClientsAreObeyed`), and gets there when left alone (`ShutdownIsServed`, `PauseIsServed`,
`ResumeIsServed`). A signal is obeyed within one turn of main's loop (`SignalIsObeyed`).
Nothing else ends the VM (`NothingElseEnds`).

**Four things a user might hope for are false, with the exact condition.**
- *SHUTDOWN is final.* A PAUSE sent by a client that was told RUNNING overwrites it
  (`LostShutdown`). In a reachable state, with the repository's clients, a SHUTDOWN can
  still be lost if and only if such an answer is outstanding: on its way to a pause or
  resume client, received by it, or already turned into the command main is serving
  (`ShutdownIsFinal`).
- *A pause freezes memory.* It does if and only if no vCPU is at the door of the guest or
  inside it (`FrozenExactly`), and exactly then do all dumps of a range agree that is
  confined to guest memory and prints something (`DumpsRepeatExactly`); a pause for which
  they do not is reached from every memory (`UnstableDumps`).
- *A signal ends the VM.* SIGINT during a pause leaves the flag set, and a parked thread
  then never exits (`SignalWhilePaused`); once main has left its loop a thread can exit if
  and only if it is not parked under a set flag (`MayExit`).
- *A dump shows its range of guest memory.* The loops read the bytes of one slice in order
  if and only if no index and no pointer wraps around (`BytesExactly`); with words of 3 bytes the
  offsets can all be right and the last word still end with the first bytes of the dump
  (`StraddlingWord`, `ThreeAcross`). When lines do not fill the range the loops print one
  word past its end (`InsideExactly`). Whatever the request, its text is a function of guest
  memory alone if and only if no byte read lies behind it (`GuestOnly`), and how far the
  reads of whole words reach has a closed form (`ReachExactly`). For the default sizes exactly
  the memory from the start to the end is shown if and only if the rounded start is a
  multiple of 16 and at most 4 GiB are left (`DefaultDump`, `TailDump`); start 2 on one page
  shows a word of the host (`OneWordTooFar`).

**Guest memory.** For every canonical linear address the walk over the tables is the
identity below 2 MiB and ends at an absent entry of a stated level elsewhere
(`IdentityMap`). Loading the kernel keeps this, and a fetch at rip + i gives kernel byte i
exactly for the bytes below 2 MiB (`BootFetch`). The initial stack pointer, `mem_size - 1`,
is mapped if and only if the memory is at most 2 MiB (`BootStack`).

**Dump and parsers.** The three nested loops are described with their 32-bit offsets, byte indices,
line count and byte counter, whether or not these wrap, over host memory of which guest memory is the
head (`DumpMem`). For a sane request their text is the rendering of a slice, and reading the text
gives the slice back (`DumpIsSlice`, `DumpRoundTrip`). The first line names the aligned and
clamped range (`AnnouncedRange`), and every word can be placed from the address of its line
(`EveryWordIsPlaced`). The list parser accepts exactly a
grammar stated on the split text, and is inverse to printing (`ParseIntList`,
`IntLists.RoundTrip`).

Where the documentation and the code differ the model follows the code: the help text of
`status` shows a comma before the optional end address, which the parser reads as an extra
field with value 0; the comment on `mini_kvm_is_uint` calls it a test for numbers, while
it accepts the empty string and any string when n is 0; a trailing comma is rejected and
`K` alone is a memory size of 0.

## Model

| member | source | states |
|---|---|---|
| LockDiscipline.Reachable | src/commands/run.c:252-293 | an invariant of every reachable state, by point of main: what flag, lock log and state may be together, and what a client's last answer still guarantees |
| LockDiscipline.LocksAlternate | src/commands/status.c:290-319 | over every run with the repository's clients lock and unlock alternate starting with lock; between commands RUNNING implies not paused and PAUSED implies paused |
| LockDiscipline.StartBarrier | src/kvm/kvm.c:319-337 | for any clients, no step before RUNNING is written enters KVM_RUN or parks, and the write replaces PAUSED |
| LockDiscipline.AlternatesExactly | src/kvm/kvm.c:432-441 | for any clients, outside the handlers that use it, the lock has been used in alternation if and only if no PAUSE arrived with the flag set and no RESUME with the flag clear |
| LockDiscipline.FinalStays | src/commands/status.c:290-307 | once SHUTDOWN is written and no answer is outstanding, it stays in every continuation with the repository's clients |
| LockDiscipline.ShutdownIsFinal | src/commands/pause.c:81-91 | in a reachable SHUTDOWN, some continuation with the repository's clients leaves it if and only if an answer that leads to PAUSE or RESUME is outstanding |
| Endings.GuestGoesOn | src/kvm/kvm.c:366-400 | if every exit in a run is served I/O, an interruption or an unexamined reason, and no thread is about to write SHUTDOWN, every step that makes the state SHUTDOWN is main's |
| Endings.ExitShuts | src/kvm/kvm.c:359-394 | after any other exit the thread's next own step writes SHUTDOWN, whatever happens meanwhile, and only after a failed ioctl does it exit without reading the state again |
| Endings.ExitLeads | src/kvm/kvm.c:298-317 | output to port 0x3f8 and any input lead back to the loop head, other output to the SHUTDOWN write |
| Endings.ExitsOnShutdown | src/kvm/kvm.c:350-403 | a thread exits by its own step, and the state is then SHUTDOWN |
| Endings.LetRun | src/kvm/kvm.c:350-359 | while RUNNING with a clear flag a thread's own steps lead into the guest |
| Endings.IsHeld | src/kvm/kvm.c:350-357 | while PAUSED with a set flag a thread's own steps lead to the condition wait |
| Endings.ClientsAreObeyed | src/commands/status.c:290-319 | whenever a client of the repository has its last reply: after SHUTDOWN the state is SHUTDOWN, the flag clear and the lock free; after PAUSE the flag is set, the lock held and the state not RUNNING; after RESUME the opposite and not PAUSED |
| Endings.ShutdownIsServed | src/commands/shutdown.c:80-83 | a shutdown client is served from any state, to SHUTDOWN with a clear flag |
| Endings.PauseIsServed | src/commands/pause.c:81-91 | a pause client pauses a running VM and sends nothing to any other |
| Endings.ResumeIsServed | src/commands/resume.c:81-91 | a resume client resumes a paused VM and sends nothing to any other |
| Endings.SignalIsObeyed | src/commands/run.c:271-289 | if main passes its loop head with a signal pending and comes back, the state there is SHUTDOWN, whatever the clients did |
| Endings.SignalIsServed | src/commands/run.c:271-293 | with no connection main then leaves its loop |
| Endings.NothingElseEnds | src/commands/run.c:252-293 | without a signal, a SHUTDOWN command or an exit that writes it, the state never becomes SHUTDOWN |
| Endings.ThreadsAreCreated | src/kvm/kvm.c:327-337 | threads are created in order and all before main serves; if one fails main serves nobody; otherwise main is done only on SHUTDOWN |
| Overshoot.Bound | src/kvm/kvm.c:349-401 | while not RUNNING, entries of a thread into KVM_RUN are bounded by its initial credit plus the number of pauses that became shutdowns |
| Overshoot.OneMore | src/kvm/kvm.c:350-359 | at most one entry while the state stays PAUSED, and at most one while it stays SHUTDOWN |
| Overshoot.TwoMore | src/kvm/kvm.c:350-359 | at most two entries across one pause that becomes a shutdown |
| Overshoot.OneMoreEach | src/kvm/kvm.c:350-359 | during a pause all threads together enter at most once per thread |
| Snapshot.QuietStep | src/kvm/kvm.c:350-401 | in a quiet pause no step changes memory and only main's steps change the state |
| Snapshot.StillMemory | src/kvm/kvm.c:350-401 | while the VM stays PAUSED with no vCPU at the door of the guest or inside, that remains so and memory is constant |
| Snapshot.StillPause | src/commands/status.c:266-288 | every dump begun in such a pause that reads guest memory only is the text of that memory |
| Snapshot.QuietPause | src/kvm/kvm.c:350-401 | while a quiet pause lasts it stays quiet and memory is constant |
| Snapshot.DumpsRepeat | src/commands/status.c:266-288 | two dumps of one range that reads guest memory only, in one still pause, are the same text |
| Snapshot.FrozenExactly | src/kvm/kvm.c:350-401 | memory is constant over every run that stays PAUSED if and only if no vCPU is at the door of the guest or inside |
| Snapshot.DumpsDiffer | src/commands/status.c:266-288 | from any other pause, when main waits for a connection, one client gets two dumps of a range that reads guest memory only, between which memory became any other contents |
| Snapshot.ServesInOrder | src/commands/status.c:266-288 | the dumps of one status client are made in the order in which it asked |
| Snapshot.DumpTears | src/kvm/kvm.c:504-520 | from a pause that is not still, one dump can show one byte of a memory and the rest of another |
| Snapshot.DumpsRepeatExactly | src/commands/status.c:266-288 | dumps of a range that reads guest memory only agree over every run that stays PAUSED if and only if no vCPU is at the door of the guest or inside, or the range prints no word |
| Snapshot.FirstChange | src/kvm/kvm.c:350-401 | if the state leaves PAUSED, the first step that changed it is main's and memory was unchanged until then |
| Snapshot.PauseSettles | src/kvm/kvm.c:350-401 | when each thread has taken the few own steps it needs since the pause, at most three, the pause is quiet |
| Termination.ExitsWithin | src/kvm/kvm.c:350-403 | under SHUTDOWN with a clear flag a thread's own steps strictly lower a rank of at most five |
| Termination.ShutdownLasts | src/commands/status.c:309-319 | with no later PAUSE or RESUME handled, SHUTDOWN with a clear flag lasts through the run |
| Termination.NeverStuck | src/kvm/kvm.c:350-403 | a thread that has not exited and is not in the condition wait always has a step |
| Termination.DoneIsFinal | src/commands/run.c:271-293 | after main leaves its loop on SHUTDOWN, state and flag never change |
| Termination.ParkedForever | src/commands/run.c:283-286 | a thread parked under a set flag when main leaves its loop stays parked in every continuation |
| Termination.MayExit | src/kvm/kvm.c:352-357 | after main leaves its loop a created thread can exit if and only if it is not parked under a set flag |
| Witnesses.TwoEntries | src/kvm/kvm.c:350-359 | a run from the start in which a thread enters twice after the pause was written |
| Witnesses.LostShutdown | src/commands/pause.c:81-91 | a run in which PAUSE replaces the SHUTDOWN of a halted guest |
| Witnesses.SignalWhilePaused | src/commands/run.c:283-286 | a run in which SIGINT during a pause leaves a thread that no continuation lets exit |
| Witnesses.UnstableDumps | src/commands/status.c:271-280 | for any memory and any range that reads guest memory only and prints a word, a run from the start after which dumps disagree though the VM stays PAUSED |
| Witnesses.UncheckedPauses | src/kvm/kvm.c:432-435 | a client that sends PAUSE twice without asking brings main to lock a lock it holds |
| Paging.IdentityMap | src/kvm/kvm.c:193-210 | for every canonical address the walk from CR3 gives the address itself, writable and supervisor only, below 2 MiB, and otherwise an absent entry at a stated level |
| Paging.BootImageAgrees | src/commands/run.c:157-177 | after tables and image are written the tables are intact and a fetch gives image byte i exactly below 2 MiB |
| Machine.SetupPages | src/kvm/kvm.c:193-210 | too small a memory is refused and unchanged; otherwise memory becomes the old one with the tables over it and nothing else changed |
| Machine.PagedIsFourLevel | src/kvm/kvm.c:237-244 | the control registers set for vCPU 0 select 4-level paging rooted at the first table |
| Machine.Kvm.constructor | src/kvm/kvm.c:52-57 | zeroed guest memory before whatever the host holds, no vCPU, state PAUSED with the flag clear |
| Machine.Kvm.AddVcpu | src/kvm/kvm.c:132-165 | the table grows by one vCPU with the next id, rip at the load address, the stack at the end of memory, and cs, ds and ss flat while es, fs and gs stay as the host gave them |
| Machine.Kvm.ConfigurePaging | src/kvm/kvm.c:212-253 | tables in memory and the paged control registers in vCPU 0 only, or nothing changed on refusal |
| Machine.Kvm.LoadKernel | src/commands/run.c:157-177 | memory with the image at the load address; an empty image is an error and changes nothing |
| Machine.BootVm | src/commands/run.c:313-335 | the result of the whole set-up: error code by case, full contents of guest memory and of the vCPU table, and nothing written beyond guest memory |
| Machine.BootFetch | src/commands/run.c:325-331 | the boot vCPU pages with the 4-level walk and its fetch at rip + i gives kernel byte i exactly below 2 MiB |
| Machine.BootStack | src/kvm/kvm.c:255-262 | the initial stack pointer is mapped if and only if memory is at most 2 MiB |
| Machine.BootSegments | src/kvm/kvm.c:220-244 | the boot vCPU has flat 64-bit readable code from descriptor 1, flat writable data from descriptor 2 in ds, es, fs and gs, and control registers with exactly the paging bits |
| Machine.BootRegisters | src/kvm/kvm.c:255-281 | every vCPU starts at 0x4000 with rsp and rbp at the last byte of memory; the others keep the host's registers but for real-mode code, data and stack segments at 0 |
| Machine.BootRest | src/commands/run.c:313-331 | guest memory at the start is the kernel from 0x4000 on, zeros below 0x1000 and behind the kernel |
| Machine.Kvm.PauseVm | src/kvm/kvm.c:432-435 | takes the lock and sets the flag |
| Machine.Kvm.ResumeVm | src/kvm/kvm.c:437-441 | clears the flag and releases the lock |
| Machine.Kvm.HandleCommand | src/commands/status.c:327-348 | new fields, return code, reply and dump text of every command, including the refusals when not PAUSED and the failed system calls |
| Machine.HandlerSteps | src/commands/status.c:234-319 | main's steps of the interleaving model, run alone, have exactly the effect of HandleCommand, for every command and every outcome of a dump |
| DumpLoops.PrintWord | src/kvm/kvm.c:513-515 | the inner loop writes the word's bytes in hexadecimal, last first, at indices that wrap at 2^32 and pointers that wrap at 2^64, and nothing for a word size above 2^31 |
| DumpLoops.PrintLine | src/kvm/kvm.c:507-517 | the middle loop writes the words at the offsets it reaches before the range is passed |
| DumpLoops.PrintLines | src/kvm/kvm.c:501-520 | the outer loop writes as many lines as the 32-bit line count says, each with its address |
| DumpLoops.DumpMem | src/kvm/kvm.c:490-521 | the text for any request on host memory, with alignment, signed clamping, 32-bit offsets and 32-bit byte indices |
| DumpRange.OffsetsExactly | src/kvm/kvm.c:501-511 | the loops go through the offsets 0, w, 2w and so on to the end of the range, and one more if lines do not fill it, if and only if no offset and no line count wraps |
| Dump.DumpIsSlice | src/kvm/kvm.c:490-521 | for a sane request the text of the loops is the header and rendering of one slice of host memory |
| DumpBytes.BytesExactly | src/kvm/kvm.c:498-515 | the bytes read are those of the range in order, and of one more word if lines do not fill it, if and only if no offset, byte index, pointer or line count wraps |
| DumpBytes.WordsThatDivide | src/kvm/kvm.c:513-515 | when the word size divides 2^32 a byte index wraps only where an offset does |
| DumpBytes.ReachExactly | src/kvm/kvm.c:501-515 | for lines of whole words, wrapped or not, every byte read lies below a limit if and only if a stated reach does |
| Dump.ReadsExactly | src/kvm/kvm.c:490-515 | the same for a request; for a sane one the reach is the end of its slice |
| Dump.WordsInOrder | src/kvm/kvm.c:504-517 | the words in the text are those at start, start + w and so on, none skipped, each spelling its little-endian value |
| Dump.Coverage | src/kvm/kvm.c:496-511 | the words cover the range exactly if and only if whole lines fill it, and otherwise the range and exactly one word more |
| Dump.DumpRoundTrip | src/kvm/kvm.c:503-520 | reading the text gives the bytes shown |
| Dump.InsideExactly | src/kvm/kvm.c:509-511 | a sane dump, one in which no index wraps, stays inside guest memory if and only if its clamped range does and whole lines fill it or the word after it still fits; the loops read nothing outside exactly then or for an empty range |
| Dump.InsideIsConfined | src/kvm/kvm.c:490-521 | a sane dump inside guest memory reads guest memory only, and its text is the rendering of the slice |
| Dump.GuestText | src/kvm/kvm.c:490-521 | such a dump is the text of guest memory, whatever the host holds behind it |
| DumpGuest.GuestOnly | src/kvm/kvm.c:504-520 | for any request, hosts with the same guest memory always give the same text if and only if every byte read is guest memory or nothing is printed |
| DumpGuest.GuestOnlyExactly | src/kvm/kvm.c:490-520 | for lines of whole words that is so if and only if the reach is 0 or ends in guest memory |
| DumpGuest.ConfinedText | src/kvm/kvm.c:490-521 | a dump that reads guest memory only is the text of guest memory, whatever the host holds behind it |
| DumpGuest.DefaultConfined | src/commands/status.c:26 | with the default sizes on whole pages only guest memory is read if and only if the rounded start is a multiple of 16 or more than 4 GiB are left |
| DumpGuest.FirstByteMatters | src/kvm/kvm.c:513-515 | for a range that reads guest memory only and prints a word, some other memory gives another text |
| DumpGuest.WrappedStart | src/kvm/kvm.c:498-511 | a reversed range that starts near 2^64 prints only words whose pointers wrap back, and these lie below a stated end |
| DumpGuest.PageFromTheTop | src/kvm/kvm.c:498-511 | a start 16 below 2^64 on one page reads guest memory only |
| DumpGuest.StraddlingWord | src/kvm/kvm.c:513-515 | when offsets fit and the last word does not, its bytes past 2^32 are the first bytes of the dump |
| DumpGuest.ThreeAcross | src/kvm/kvm.c:513-515 | words and lines of 3 bytes up to 2^32 + 2 are such a request |
| DumpGuest.ThreeUpTo4G | src/kvm/kvm.c:509-515 | up to 2^32 on 4 GiB the word past the range wraps, and the text is that of guest memory alone |
| Dump.DefaultDump | src/commands/status.c:26 | for the default end, word and line sizes on whole pages, exactly the words from the rounded start to the end of memory are printed if and only if that start is a multiple of 16 and at most 4 GiB are left, which is also when the dump stays inside |
| Dump.PastTheEnd | src/kvm/kvm.c:509-511 | from any other start with at most 4 GiB left the last word printed is the two host bytes behind guest memory |
| Dump.OneWordTooFar | src/kvm/kvm.c:509-511 | so it is for start 2 on a memory of one page |
| Dump.LinesRepeat | src/kvm/kvm.c:505-508 | past 4 GiB, with a line size that divides 2^32, the dump prints its lines again, addresses included |
| Dump.NoWords | src/kvm/kvm.c:501-511 | a reversed range, such as a start past memory, gives lines of addresses without words |
| DumpText.LineHeadSpells | src/kvm/kvm.c:505 | each line opens with 0x and a hexadecimal spelling of its address |
| DumpReading.StartsAtWord | src/kvm/kvm.c:496 | the dump starts at the word that holds start |
| DumpReading.EndsAtWord | src/kvm/kvm.c:497-500 | its range ends at the first word boundary from end on, cut at the memory size unless that boundary is negative as a signed number |
| DumpReading.WordDigits | src/kvm/kvm.c:513-515 | two digits a byte for words of at most 2^31 bytes, none for larger ones |
| DumpReading.AnnouncedRange | src/kvm/kvm.c:503 | for any request the two numbers of the first line are where the dump starts and where its range ends, in this order |
| DumpReading.AnnouncedLines | src/kvm/kvm.c:504-517 | for any request line k of the text starts with the address of its first word, in the widths of the source, and holds the words of the middle loop |
| DumpReading.EveryWordIsPlaced | src/kvm/kvm.c:504-517 | when nothing wraps line k starts with start + k * line, its j-th word is the one at that address plus j * word, and all lines but the last are full |
| Text.NoLeadingZero | src/kvm/kvm.c:503 | numbers in decimal are written without leading zeros |
| Text.EightDigits | src/kvm/kvm.c:505 | addresses below 4 GiB take eight digits |
| DumpText.RenderedTokens | src/kvm/kvm.c:504-520 | the words of a rendered text are the words of its bytes, none lost or repeated at line ends |
| DumpText.RoundTrip | src/kvm/kvm.c:503-520 | reading any rendered text gives its bytes back |
| DumpText.TokenValue | src/kvm/kvm.c:513-515 | the number a token spells is the little-endian value of its word |
| DumpCommand.BuildDumpCommand | src/commands/status.c:110-119 | the command holds the given values, then the tail of the defaults |
| DumpCommand.ServedIsMeant | src/commands/status.c:278-280 | for any printed list of up to four 64-bit values the server uses those values and defaults, with the memory size for an end of -1 |
| DumpCommand.RequestDump | src/commands/status.c:266-288 | one request from argument to text: parse error, refusal when not PAUSED, failure to reach the client, or the text of the served range, inside guest memory or not |
| DumpCommand.TailDump | src/commands/status.c:69-76 | a start alone as argument shows exactly the memory from there to the end if and only if it rounds to a multiple of 16 and at most 4 GiB are left, and the text then reads back as that memory |
| IntLists.Scan | src/core/core.c:125-128 | the rescanning loop stops one past the digits, or at the end of the text |
| IntLists.ParseField | src/core/core.c:125-140 | one turn succeeds exactly on a good field that ends the text or has text after its comma, and gives its value |
| IntLists.ParseIntList | src/core/core.c:117-147 | success exactly on the grammar, with the field values in order and an empty inner field as 0 |
| IntLists.Grammar | src/core/core.c:117-147 | a text is accepted if and only if it is empty or some good comma-free fields join to it |
| IntLists.GrammarIsJoin | src/core/core.c:117-147 | fields that join to a text are the ones that decide it: accepted exactly when they are good, with their values |
| IntLists.RoundTrip | src/core/core.c:117-147 | printing any 64-bit numbers and parsing gives them back |
| IntLists.Reprint | src/core/core.c:117-147 | printing what was parsed is accepted again with the same values |
| Numbers.IsUint | src/core/core.c:87-101 | true exactly when the first n characters, as far as they exist, are digits |
| Numbers.ToUint | src/core/core.c:103-115 | refusal leaves the target alone; otherwise value and range error are those of strtoul |
| Numbers.StrtoulStopsAt | src/core/core.c:108-109 | strtoul, which is not told n, reads exactly the n checked digits when no digit follows |
| Numbers.StrtoulSkipsSpace | src/core/core.c:108-109 | leading white space does not count for strtoul |
| Numbers.StrtoulSigned | src/core/core.c:108-109 | a plus does not count for strtoul and a minus negates in 64 bits |
| Text.LeadingZero | src/core/core.c:108-109 | a leading zero does not count |
| CpuMask.ParseCpuList | src/core/core.c:149-166 | an accepted list sets exactly its own bits and keeps the others; a rejected one keeps the mask |
| CpuMask.MaskIsMembership | src/core/core.c:160-162 | bit k is set if and only if it was set or k is in the list |
| CpuMask.OrderAndDuplicates | src/core/core.c:160-162 | lists with the same members give the same mask |
| CpuMask.BitIsPower | src/core/core.c:160-162 | entry k of the list stands for the number 2^k |
| MemSize.ParseMem | src/commands/run.c:40-74 | accepts exactly digits with an optional unit, not empty; rejection leaves the target alone; saturation and wrap-around of the size |
| MemSize.GrantedIsRequested | src/commands/run.c:36-38 | the size is the least number of whole pages not below the request if and only if that fits in 64 bits |
| MemSize.UnitsAreBinary | src/commands/run.c:46-72 | n, nK, nM and nG grant the least whole pages for n, n * 2^10, n * 2^20 and n * 2^30 bytes |
| MemSize.MegaAgainstKilo | src/commands/run.c:46-71 | when the same amount in M and in K gives the same size, exactly |
| Vectors.Vec.constructor | src/core/containers.c:7-14 | empty, capacity 1 |
| Vectors.Vec.Resize | src/core/containers.c:19-30 | contents kept, capacity grown or refused, and how many elements were copied |
| Vectors.Vec.Append | src/core/containers.c:31-37 | contents extended by the value, length again strictly below capacity |
| Vectors.Vec.Pop | src/core/containers.c:38 | last element removed |
| Vectors.Outcome | src/core/containers.c:7-38 | after any legal run of operations the contents are the plain sequence and the length is strictly below the capacity |
| Vectors.Replay | src/core/containers.c:7-38 | the class driven through any legal run holds that outcome |
| Vectors.AmortisedGrowth | src/core/containers.c:31-38 | over appends and pops the capacity is a power of two, exactly capacity - 1 elements were copied, fewer than two per append |

## Left out

- Vectors.Vec.Append: does not model failed allocation or the wrap of `capacity << 1` at 2^63.
- Numbers.ToUint: takes `errno` as clear on entry, which the source does not ensure.
- CpuMask.ParseCpuList: entries above 30 are excluded, because shifting an `int` further is undefined in C.
- DumpLoops.DumpMem: requires sizes above 0, because the source divides by them; a line of whole words or a line and word size that add up to at most 2^32, because the word counter otherwise wraps and need not end; and host memory at every byte read, because the source otherwise reads elsewhere or faults; pointers are taken to wrap at 2^64, which C leaves undefined.
- DumpRange.OffsetsExactly and what follows from it: for lines of whole words; with other line sizes words overlap line ends and only the text of the loops is given.
- DumpCommand.RequestDump: requires at most four values, because the source writes past the array with more, and what DumpMem requires of the range.
- Machine.BootVm: requires that the kernel fits above the load address, because the source copies it unchecked; KVM ioctls, `mmap`, CPUID and IRQ set-up are taken to succeed, and what KVM_GET_SREGS returns is a parameter.
- Machine.Kvm.HandleCommand: the registers that SHOW_REGS returns are not modelled, only its return code; the "all vCPUs" default is not either. Whether the system calls behind SHOW_REGS and DUMP_MEM succeed is a parameter.
- Mutex ownership on the vCPU side: the condition wait is called without holding the mutex, which POSIX leaves undefined, so parking is a state a thread may leave at any time and the lock is a log of main's calls.
- Whether parked threads are woken and whether the final join completes: resume signals one waiter only, and no fairness is assumed.
- Weak memory: the shared variables are read and written in one global order.
- The branch on a negative result of KVM_RUN is allowed always; whether it can be taken depends on the type the compiler gives the error enumeration.
- Lost messages: every command and reply arrives whole; the clients do not notice a failed receive, which would leave a zeroed reply that reads as PAUSED.
- A dump in the interleaving model may read the bytes in any order; one that reads other than guest memory, or has sizes that DumpMem does not accept, may give any text, because what lies elsewhere is not part of the state, and is taken to come to an end.
- Accessed and dirty flags that the processor writes into page-table entries, and the limit of the physical address width.
- Argument parsing with getopt, logging, sockets, pid files, directory removal and printing of registers: input and output only.
- The guest program in `bios/`, apart from its load address.
