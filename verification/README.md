# A model of libcap

libcap gives programs Linux capabilities: sets of privileges that a process, a thread or a file
carries. It exists twice, as a C library (`libcap/`) and as a Go package (`cap/`), over a common
mechanism that makes a system call on every thread of a process (`psx/`). This project models the
parts where a mistake would be hardest to see, and proves what they are for.

**The barrier** (`PsxHash`, `PsxMap`, `PsxBarrier`, `PsxBarrierRuns`, `PsxBarrierEnds`, `PsxCaller`,
`PsxTracker`, `PsxTrackerRuns`, `PsxTrackerEnds`). A thread makes a system call, then sweeps the list of threads, signals every one it has not seen, holds them in a
signal handler until all have made the same call, and releases them together. `PsxMap` is the
growing hash table as a class over an array. `PsxBarrier` is the sweep, the handlers and the
threads that clone and exit meanwhile, as one transition system with every interleaving;
`PsxCaller` ties the two together. `PsxTracker` puts around it the lock whose word is a process
id, the four states of the tracker, any number of threads that call or wait for their turn, the
handlers on top of them, exit and fork; every call of its runs is shown to be a run of the barrier.
Neither ever gets stuck: from every reachable state there is a way to the end of the call.

**The launch gate** (`LaunchGate`, `LaunchGateWays`). The Go package lets one thread deviate in privilege while it
launches a program. A three-state monitor keeps that apart from writes to the whole process, for
any number of launches and writers.

**Text** (`Strings`, `TextModel`, `Printing`, `GoText`, `GoTextCode`, `CText`, `CTextCode`,
`CTextPrint`, `CTextSize`, `CTextForms`, `TextForms`, `TextExamples`, `ClauseAgreement`,
`TextAgreement`). A set has a canonical text of clauses such as
`cap_chown,cap_kill=ip`. `TextModel` defines that text and what clauses mean; the two printers are
loops proved to write it, the C one into a fixed buffer; the two parsers are loops proved against
what they read; both read back what either wrote; and on any other text that both accept they are
shown to differ in two ways only.

**Privilege** (`Kernel`, `Privilege`, `Mode`, `CMode`). The kernel's rules for changing the permitted,
effective, inheritable, ambient and bounding sets and the secure bits are a small state machine.
Against it the ordered system calls that apply a tuple of inheritable vectors, and those that enter
a security mode, are proved to succeed exactly under a condition on the state before.

**Formats and sets** (`Bits`, `Words`, `CapSet`, `MaxBits`, `ExtFormat`, `ExtCode`, `VfsFormat`,
`IabTuple`, `CIab`). Sets are held in 32-bit words and changed in place, with a roll-back on error.
The portable byte form, the form stored with files, and the text of the inheritable vectors are
written and read by both libraries, and each reads what the other wrote. Words are natural numbers
below 2^32 with bitwise operations defined digit by digit.

`dafny verify dfyconfig.toml` checks everything.

Conventions. A name table has distinct names of lower-case letters and underscores, none of them
"all". There are between one and 32 * words named values. A thread id is a positive number below
2^width with 8 <= width <= 30. Each section of psx between lock and unlock is one step, and signals
arrive only outside such sections, one handler at a time on a thread; a signal that psx did not send
is one that its handler recognises as such and passes on; a thread that is in psx or in a handler
neither clones, exits nor forks; pending signals are not inherited by a forked child; a clone
inherits whether its creator has the effect of the call; an empty directory batch means that every
live thread was listed in that sweep; a thread id is not used twice within one call. SETPCAP counts
as effective when it was so before the step.

Where the code and what is written about it differ, the model follows the code:

- `cap/text.go:195-196` says that FromText matches the C parser completely. Both parsers accept
  "cap_chown=e cap_dac_override=p" and "010=e" and read them as different sets: in Go `=` lowers everything first, in C
  only what its clause lists (`TextAgreement.ParsersDiffer`), and C reads a numeral with a leading
  zero in base 8 (`TextAgreement.LeadingZeroDiffers`). Without such numerals the first is the only
  difference on texts that both accept: `ClauseAgreement.ClausesAgree` says exactly when a clause
  means the same, `ClauseAgreement.ReadsForgetting` and `ClauseAgreement.TextsAgree` carry it to
  whole texts. They also differ in what they accept. Go alone takes operators after a clause
  without a list ("=-e", "=e-p") and numerals like "08". C alone takes names in upper case ("CAP_CHOWN=e"), numerals in
  base 16 ("0x1=e"), "all" inside a list ("cap_chown,all=e") and a text without clauses
  (`TextAgreement.OneSided` has those that need no name table, `CTextForms` what C reads them as).
- `doc/cap_iab.3:97-104` says that SETPCAP in the permitted set is enough to raise inheritable
  values beyond it. The code raises SETPCAP in the very call that needs it, so the kernel still
  refuses: `Privilege.DocumentedCaseFails`, `Privilege.PermittedIsNotEnough`.
- A C build without the generated lookup prints names of values beyond the running kernel's that it
  then cannot read: `CText.CRoundTrip` has the exact condition.
- An attempt at the mode NOPRIV that the kernel refuses half way leaves a Go process with its
  permitted set and a C process with nothing: `Mode.SetMode`, `CMode.CSetMode`.
- `cap/flags.go:21-25` promises that SetFlag returns an error or sets the values. `cap/flags.go:125`
  admits the value just past the end, which is then used as an index: `CapSet.Set.SetFlag` says
  exactly when.
- `cap/file.go:242-244` gives the namespace owner as a plain int to a writer that takes none, and
  ignores its refusal: `VfsFormat.GoFileRoundTrip` and `VfsFormat.OwnerNotPacked` say what is lost.

## Model

| member | source | states |
|---|---|---|
| PsxHash.MixInjective | psx/psx.c:78-81 | two thread ids with the same mixed hash are the same thread id |
| PsxHash.MixByInjective | psx/psx.c:78-81 | the mix is injective for every triple of positive shift distances, not only 7, 13 and 23 |
| PsxHash.MixByBelow | psx/psx.c:78-81 | mixing does not leave the width of its argument, so a mask of that width separates all ids |
| PsxHash.DistinctSlots | psx/psx.c:374-384 | distinct ids fall into distinct slots of every table at least as wide as the ids |
| PsxHash.MixBits | psx/psx.c:78-81 | digit k of the hash is the parity of the digits k, k + 7, k + 13 and k + 23 of the id |
| PsxMap.Widen | psx/psx.c:376-384 | the doubling loop ends, and at the first power of two under whose mask the two ids differ |
| PsxMap.CopyRecent | psx/psx.c:389-402 | copying into the larger table keeps exactly the entries of this and the previous sweep, each at its new slot |
| PsxMap.ThreadMap.constructor | psx/psx.c:83-88 | a new table is empty |
| PsxMap.ThreadMap.Clear | psx/psx.c:330-331 | clearing forgets every entry and keeps the size |
| PsxMap.ThreadMap.Grow | psx/psx.c:374-406 | after growing every recent entry is found at its slot, nothing else is, and the slot of the new id is free |
| PsxMap.ThreadMap.Find | psx/psx.c:370-374 | an id is known exactly when it has an entry, whatever else is in the table; a collision is another thread in its slot |
| PsxMap.ThreadMap.Register | psx/psx.c:415-419 | a new id in its free slot becomes a pending entry and every other entry stays |
| PsxMap.ThreadMap.Count | psx/psx.c:428-436 | counting an entry marks it as seen in this sweep and reports whether it is pending and what it returned |
| PsxMap.ThreadMap.Report | psx/psx_calls.c:243-247 | the unchecked lookup of the handler writes the entry of its own thread and no other, and takes no free slot, so a growth stays good for the registration after it |
| PsxMap.CarriedTracks | psx/psx.c:389-402 | entries carried to a wider mask are again each at its own slot, so no two of them collide |
| PsxMap.CarriedSlots | psx/psx.c:389-402 | a slot of the wider table holds an entry exactly when a recent entry of the old table belongs there |
| PsxMap.NewSlotIsFree | psx/psx.c:378-384 | no recent entry falls into the slot of the id that forced the growth |
| PsxMap.SlotOf | psx/psx_calls.c:244-245 | an id with an entry is found at its masked hash |
| PsxBarrier.InitInv | psx/psx.c:326-338 | the state when a call starts its sweeps satisfies the invariant |
| PsxBarrier.StepInv | psx/psx.c:335-454 | every step of the caller, of a handler and of the environment keeps the invariant |
| PsxBarrier.GrowInv | psx/psx.c:388-404 | the section that grows the table, which drops entries of earlier sweeps, keeps the invariant, whatever handlers report before the registration |
| PsxBarrier.VisitInv | psx/psx.c:366-427 | registering a listed thread, or finding it known, keeps the invariant |
| PsxBarrier.EndOfListInv | psx/psx.c:350-445 | ending a list keeps the invariant, also when it is the second one in a row with nobody pending |
| PsxBarrier.ReportInv | psx/psx_calls.c:243-247 | a handler writing its result keeps the invariant |
| PsxBarrier.CloneInv | psx/psx_calls.c:248-256 | a clone of a thread that is not held keeps the invariant, as does its inheriting the applied state |
| PsxBarrierRuns.RunInv | psx/psx.c:335-454 | the invariant holds in every state of every run |
| PsxBarrierRuns.NobodyForgotten | psx/psx.c:411-427 | in every state of every run a live thread whose entry is pending has its signal pending, is in its handler, or is the one about to be signalled |
| PsxBarrierRuns.TwoCleanSweeps | psx/psx.c:438-446 | the loop goes on until two sweeps in a row have found nobody pending, and no longer |
| PsxBarrierRuns.GrowthForgets | psx/psx.c:390-404 | a growth keeps the entries of the live and of the counted threads, and forgets exactly those that neither this sweep nor the one before has counted |
| PsxBarrierRuns.BarrierHolds | psx/psx.c:335-449 | when the sweep loop exits, every live thread but the caller is held in its handler and has run the system call exactly once for this call, and `mismatch` is set exactly when one of them got another result |
| PsxBarrierRuns.DrainCounts | psx/psx.c:448-454 | while the caller drains, `incomplete` is the number of handlers still held, the drain is over exactly when none is and until then one can leave, and nobody is in a position to take the signal, run the system call or report any more |
| PsxBarrierRuns.CallCompletes | psx/psx.c:448-470 | at the end every live thread, clones included, has the effect of the call exactly once, no handler of this call is left, and the next call can start |
| PsxBarrierEnds.CanComplete | psx/psx.c:335-454 | from every state of every run there is a way to the end of the call: every thread can be signalled, reports, is counted and is released; nothing is ever stuck |
| PsxBarrierRuns.InvGivesEntries | psx/psx_calls.c:243-247 | the entries that caller and handlers use without a test are present |
| PsxBarrierRuns.OwnEntries | psx/psx_calls.c:243-247 | at every moment of every run a handler about to report finds the entry of its own thread |
| PsxCaller.Restart | psx/psx.c:326-338 | from the end of any finished run, clearing the table makes a start of the barrier for the next call of any thread, with every thread where the last call left it |
| PsxCaller.VisitEntry | psx/psx.c:366-419 | the lookup, growth and registration of a listed id do to the map what the barrier's grow and visit steps do, and a thread is new when the step goes on to signal it |
| PsxCaller.FindEntry | psx/psx.c:370-374 | the lookup tells which way the barrier's visit goes |
| PsxCaller.GrowEntry | psx/psx.c:388-404 | the growth section is the barrier's grow step and leaves the slot free for the registration |
| PsxCaller.RegisterEntry | psx/psx.c:415-419 | the registration section is the barrier's visit step of a new thread |
| PsxCaller.CountEntry | psx/psx.c:428-436 | the table operation for a counted id is the barrier's count step, mismatch and pending count included |
| PsxCaller.ReportEntry | psx/psx_calls.c:243-247 | the table operation of a handler is the barrier's report step, and may come between growth and registration |
| PsxTracker.StepInv | psx/psx.c:138-213 | every exchange, section and unlocked step of callers, waiting callers and handlers keeps the invariant of the lock, the owner and the barrier underneath |
| PsxTrackerRuns.RunInv | psx/psx.c:138-213 | that invariant holds in every state of every run |
| PsxTrackerRuns.OneOwner | psx/libpsx.h:21-32 | at most one thread is inside the lock, and at most one is in a call, also while others wait for a call of their own and are interrupted |
| PsxTrackerRuns.CallsRunTheBarrier | psx/psx.c:314-498 | during every call of every run the barrier is in a state that one of its runs reaches, over the threads of the process, and every handler stands where the barrier has its thread |
| PsxTrackerRuns.CallStarts | psx/psx.c:313-333 | a call enters its sweeps with the result of its own system call and with all the other threads of the process, none of which has the effect yet |
| PsxTrackerRuns.ReturnsUniform | psx/psx.c:448-498 | when a call returns every other thread has its effect exactly once and no handler of it is left |
| PsxTrackerRuns.OwnerMovesOn | psx/psx.c:205-213 | the thread that is in a call finds the state that each of its sections needs; only in the drain may it wait, and then a released handler is on its way out |
| PsxTrackerRuns.CommandStable | psx/psx.c:230-254 | whoever may write the command does so while no handler of a call is under way, and a handler reads, all the time, the command last written |
| PsxTrackerRuns.FreedWhenIdle | psx/psx.c:177-198 | the tracker's memory is freed only when no call is in flight, no handler acts for one and no signal of one is pending |
| PsxTrackerRuns.ExitingIsFinal | psx/psx.c:185-196 | once exiting, always exiting; no call starts again and no handler acts |
| PsxTrackerRuns.ForkedChildRestarts | psx/psx.c:138-151 | a child forked at any moment, even while its parent held the lock, takes the lock and starts from the idle state |
| PsxTrackerEnds.CallCanReturn | psx/psx.c:313-501 | from every state of every run in which a call is prepared or in flight there is a way to the idle tracker with the lock free |
| PsxTrackerEnds.WaitingCallerCanStart | psx/psx.c:162-213 | from every state of every run a caller that waits for the tracker can get its turn, unless the process is exiting |
| LaunchGate.Gate.SetState | cap/syscalls.go:71-90 | a transition changes the monitor as the transition function says, once it need not wait |
| LaunchGate.Gate.StateSC | cap/syscalls.go:95-121 | claiming the gate blocks it, returns the state before, and chooses the single-thread calls exactly for a registered launch |
| LaunchGate.StepInv | cap/syscalls.go:71-121 | every step of any number of launches and writers keeps the invariant of the gate |
| LaunchGate.RunInv | cap/syscalls.go:71-121 | the invariant holds in every state of every run |
| LaunchGate.OneWriter | cap/syscalls.go:71-121 | at most one thread writes; the state it will restore is still right; idle means no registered launch and active means some |
| LaunchGate.ProcessWideWrites | cap/syscalls.go:92-121 | a process-wide write runs only while no launch is registered and all threads agree; any other write reaches its own launched thread only |
| LaunchGate.WritesReach | cap/syscalls.go:92-121 | a process-wide write gives its value to every live thread; any other write gives it to its own thread and changes nobody else |
| LaunchGate.ThreadsComeAndGo | cap/launch.go:234-370 | a new thread starts with the privilege of the process, and one that ends leaves nothing behind |
| LaunchGateWays.CanSettle | cap/syscalls.go:71-121 | from every state of every run there is a way to the idle gate with all launches and writes finished |
| LaunchGateWays.WriteRun | cap/syscalls.go:92-121 | at the idle gate any free thread can write for the whole process, and the gate is as before |
| LaunchGateWays.LaunchRun | cap/launch.go:234-370 | unless somebody writes, any free thread can launch, whoever else has, which registers it and nobody else |
| LaunchGateWays.HomeWriteRun | cap/syscalls.go:92-121 | a launched thread can write through the same calls, for itself alone, and the gate is as before |
| LaunchGateWays.EndRun | cap/launch.go:234-370 | a launch that ends leaves the gate idle if it was the last, and active otherwise |
| LaunchGate.OnlyLaunchesDeviate | cap/launch.go:234-370 | a thread whose privilege differs from the process is a registered launch, and none is left when the gate is idle |
| LaunchGate.WaitersAreFreed | cap/syscalls.go:71-121 | whenever a thread waits at the gate, another one that the gate concerns does not wait and can move on |
| CapSet.Set.constructor | cap/cap.go:316-322 | a new set raises nothing |
| CapSet.Set.Clear | cap/flags.go:64-74 | clearing lowers every flag of every value |
| CapSet.Set.SetFlag | cap/flags.go:22-60 | the first listed value that is not in range decides: without one every value gets the flag; if it is the value just past the end, the code indexes out of bounds, exactly then; if it is larger, nothing at all changes |
| CapSet.Set.ForceFlag | cap/flags.go:148-168 | one flag is set for exactly the named values |
| CapSet.Set.ClearFlag | cap/flags.go:170-176 | one flag is lowered everywhere, the others stay |
| CapSet.FlatExt | cap/cap.go:134-163 | two sets with the same flags for every value are the same words |
| CapSet.StoreView | cap/flags.go:22-60 | or-ing or masking one bit changes one flag of one value |
| CapSet.BitAllMask | cap/flags.go:133-145 | the mask of a word has exactly the bits of the named values |
| MaxBits.BinarySearch | libcap/libcap.h:246-257 | the number of values the kernel accepts, or the build-time number when there are none or too many |
| MaxBits.Search | cap/cap.go:296-305 | the number of values the kernel accepts, cut to the words, or the build-time number |
| TextModel.BackgroundIsLeastBest | cap/text.go:67-78 | the background is the least of the most frequent flag combinations of the named values |
| TextModel.PrintedMeansSet | cap/text.go:87-153 | reading the printed clauses from left to right over the empty set gives the set back, for every value and flag |
| TextModel.NamedGroupsAt | cap/text.go:104-136 | of the clauses for named values exactly the one of a value's own flags touches it, and turns the background into them |
| TextModel.UnnamedGroupsAt | cap/text.go:138-151 | of the clauses for unnamed values exactly the one of a value's own flags touches it |
| TextModel.OpeningAt | cap/text.go:121-128 | merging an empty background into the first clause changes no value |
| TextModel.PrintedShape | cap/text.go:103-151 | the first printed clause sets, all later ones add or lower something for a non-empty list |
| TextForms.FlagLetters | cap/text.go:45-51 | the flags are written with the letters e, i and p |
| TextForms.UniformText | cap/text.go:121-128 | the text of a set whose named values all have the same flags is an equals sign and these flags |
| TextForms.GroupText | cap/text.go:104-136 | the text of a set in which fewer than half of the named values raise the same flags, and the others none, is their names with commas between them, an equals sign and the flags |
| TextForms.WhiteSpace | cap/text.go:199-200 | any of the six white-space characters, any number of times, around and between the clauses of a printed text changes nothing for either parser |
| GoTextCode.Histo | cap/text.go:52-79 | the counting loop fills the bins and the patterns of its range, and returns the background |
| GoTextCode.List | cap/text.go:109-115 | the list of a combination is the names of its values, in order |
| GoTextCode.AddGroup | cap/text.go:104-136 | the text of one more group, with the shortcut, is the text of the clauses so far and that group |
| GoTextCode.NamedTexts | cap/text.go:102-136 | the loop over combinations writes the clauses for the named values |
| GoTextCode.UnnamedTexts | cap/text.go:138-151 | the loop over combinations writes the clauses for the unnamed values |
| GoTextCode.String | cap/text.go:87-154 | the Go printer returns the canonical text of its set |
| CTextPrint.Sprintf | libcap/cap_text.c:396-399 | formatted text and its terminator stay inside the buffer |
| CTextPrint.WriteNames | libcap/cap_text.c:406-420 | the names are written with a comma each; the limit is reported exactly when the list would end past it |
| CTextPrint.NamedGroup | libcap/cap_text.c:401-446 | one clause for named values, the test on the first two characters and the merged background included |
| CTextPrint.UnnamedGroup | libcap/cap_text.c:454-483 | one clause for unnamed values |
| CTextPrint.BareOpening | libcap/cap_text.c:424-431 | the two characters looked at are "= " exactly when nothing was added to an empty background yet |
| CTextPrint.ToText | libcap/cap_text.c:359-491 | the C printer writes only inside its buffer, returns the same canonical text as the Go printer, and fails exactly when that text with its merged background is longer than the limit |
| CTextPrint.RawIsText | libcap/cap_text.c:424-431 | the result is what the buffer holds without the merged background |
| CTextSize.LengthBound | libcap/cap_text.c:359-491 | the text of any set is at most the names of all values once each and 132 more characters |
| CTextSize.AlwaysFits | libcap/cap_text.c:29-29 | with at most 41 names and 64 values the C printer never fails for lack of room |
| GoText.FromNameOf | cap/text.go:12-41 | the name or numeral printed for a value reads as that value |
| GoText.ReadClauseText | cap/text.go:206-305 | a printed clause, read over any set, does what the clause means |
| GoText.GoRoundTrip | cap/text.go:80-86 | FromText(c.String()) succeeds and equals c, for every set and every name table |
| GoText.EqualsForgets | cap/text.go:181-184 | a clause that begins with any form of "=" gives the same set whatever was there before |
| TextExamples.FirstLine | cap/text.go:189-189 | the four documented texts all mean everything, and the last is the one that is printed |
| TextExamples.SecondLine | cap/text.go:191-191 | the three documented texts mean the same, for any two names, and the last is the one that is printed |
| TextExamples.ThirdLine | cap/text.go:193-193 | the four documented texts mean the empty set, and the last is the one that is printed |
| GoTextCode.FlagRun | cap/text.go:238-256 | the letter loop stops at the first other character and returns the flags before it |
| GoTextCode.RunOp | cap/text.go:264-300 | the calls for one operator do what the operator means, and fail exactly for "+" or "=+" without a list |
| GoTextCode.Heading | cap/text.go:203-233 | values, operator and rest of a clause, "=+" and "=-" included |
| GoTextCode.RunClause | cap/text.go:203-309 | one clause is applied to the set, or rejected exactly when it is malformed |
| GoTextCode.FromText | cap/text.go:197-318 | the Go parser returns the set that its text denotes, or fails exactly when the text denotes none |
| CText.ApplyAgain | libcap/cap_text.c:215-269 | running an operator again with one more letter is running it once with all of them |
| CText.LookupPrinted | libcap/cap_text.c:87-133 | a printed name is found exactly when the lookup knows it; a printed numeral always is |
| CText.ListPrinted | libcap/cap_text.c:177-194 | a printed list reads as its values, or fails when one of its names is unknown |
| CText.ClausePrinted | libcap/cap_text.c:177-270 | a printed clause reads as its list and its actions, and the rest of the text is left |
| CText.CRoundTrip | libcap/cap_text.c:137-286 | cap_from_text(cap_to_text(c)) is c exactly when the lookup is the generated one or no value with a name beyond the kernel's is raised; otherwise it fails |
| CTextForms.LookupAnyCase | doc/cap_text_formats.7:49-52 | a name in any mixture of cases is looked up as its value wherever the lower-case one is, in both kinds of build |
| CTextForms.TextAnyCase | libcap/cap_text.c:53-62 | a text that begins with a name means the same with that name in any mixture of cases |
| CTextForms.AllListed | libcap/cap_text.c:191-193 | the word all, in any mixture of cases, lists exactly the named values |
| CTextForms.AllForgets | libcap/cap_text.c:69-85 | in the midst of a list it forgets what stands before it |
| CTextForms.NumeralsRead | libcap/cap_text.c:95-100 | numerals are read in base 16 after 0x, in base 8 after 0 and in base 10 otherwise, digits in either case |
| CTextCode.CapT.SetBits | libcap/cap_text.c:38-44 | one flag is raised for exactly the listed values |
| CTextCode.CapT.ClrBits | libcap/cap_text.c:46-51 | one flag is lowered for exactly the listed values |
| CTextCode.CapT.Run | libcap/cap_text.c:231-258 | the calls for one operator do what the operator means |
| CTextCode.ForceAll | libcap/cap_text.c:69-85 | the list becomes exactly the named values |
| CTextCode.NamCmp | libcap/cap_text.c:53-62 | a name matches when it stands at the cursor, in any case, and no word character follows |
| CTextCode.Lookup | libcap/cap_text.c:87-133 | the cursor version of the lookup returns the value and the place after it |
| CTextCode.ParseList | libcap/cap_text.c:177-194 | the list loop returns the listed values, with "all" overwriting what came before |
| CTextCode.ParseActions | libcap/cap_text.c:215-269 | the action loop, which runs the operator after each letter, gives the set in which every operator is applied once with all its letters |
| CTextCode.ParseClause | libcap/cap_text.c:161-270 | one clause at the cursor is applied to the set, or rejected exactly when it is malformed |
| CTextCode.FromText | libcap/cap_text.c:137-286 | the C parser ends on every text and returns the left-to-right fold of its clauses over the empty set, or fails exactly when there is no such reading |
| TextAgreement.PrintedTextsAgree | go/compare-cap.go:286-338 | a text printed by either library Go reads as the set it came from, and so does C, or rejects it exactly when the set is not Speakable: a value is raised whose name this C build does not read |
| ClauseAgreement.ListedAgrees | cap/text.go:208-219 | what Go accepts before the operator of a clause names for C the same values, or C rejects it; numerals with a leading zero excepted |
| ClauseAgreement.ClauseAgrees | cap/text.go:197-309 | every clause that both parsers accept, over any set: Go reads it as C does, from the empty set if its first operator sets |
| ClauseAgreement.ClausesAgree | cap/text.go:264-288 | so both read it alike exactly when its first operator only adds or lowers, or nothing outside its list is raised |
| ClauseAgreement.ReadsForgetting | cap/text.go:197-318 | every text that both accept, from any set: Go reads the clauses that C reads, each that sets from the empty set |
| ClauseAgreement.TextsAgree | cap/text.go:195-196 | such a text both read as the same set when no clause that sets finds anything raised outside its list |
| ClauseAgreement.OnlyFirstSets | cap/text.go:181-184 | that is so for every text in which only the first clause sets |
| TextAgreement.LeadingZeroDiffers | libcap/cap_text.c:95-100 | both accept 010=e; C raises value 8 and Go raises value 10 |
| TextAgreement.OneSided | cap/text.go:195-196 | =-e and =e-p are accepted by Go only; the empty text and 0x1=e by C only |
| TextAgreement.ParsersDiffer | cap/text.go:195-196 | there is a text that both parsers accept and read as different sets, against the comment that they match completely |
| Kernel.CapsetSets | doc/cap_get_proc.3:54-66 | what a granted change of flags makes of each set; ambient values stay within permitted and inheritable |
| Kernel.WriteKeeps | cap/names.go:76-91 | no write adds to the permitted or bounding set, adds to the inheritable set except from the bounding set, or changes a locked secure bit |
| Kernel.RunKeeps | cap/names.go:76-91 | the same for every run of writes |
| Kernel.LocksLast | cap/convenience.go:19-28 | each of the four locks, once set, stays set along every run of writes and keeps its setting |
| Kernel.PowerlessRun | doc/cap_get_proc.3:54-66 | without SETPCAP no run of writes changes the bounding set or a secure bit, an unlocked keep-caps apart |
| Kernel.SmallWrites | cap/names.go:76-91 | which values the single drops, raises and lowers change, and under which conditions |
| Privilege.NewInheritable | cap/iab.go:214-226 | the word loop finds whether some new inheritable value is neither inheritable nor permitted, and whether anything is blocked |
| Privilege.MustDrop | cap/iab.go:227-240 | whether a blocked value is still in the bounding set |
| Privilege.ResetAmbient | cap/cap.go:488-500 | the ambient set is empty afterwards, and nothing else changed |
| Privilege.RaiseAndDrop | cap/iab.go:262-274 | on success the ambient set is the tuple's and the blocked values are gone; success means every ambient value could be raised |
| Privilege.IabSetProc | cap/iab.go:213-276 | it succeeds exactly under the stated condition on the process before the call; then I, Amb and Bset are the tuple's and P, E and secure bits are unchanged; on failure P, E and secure bits are unchanged too |
| Privilege.FirstChange | cap/iab.go:241-253 | when the first change of flags is granted |
| Privilege.LastChange | cap/iab.go:254-258 | the deferred restoring of the effective flags cannot fail |
| Privilege.PermittedIsNotEnough | doc/cap_iab.3:97-104 | with SETPCAP permitted and all else in order the call fails exactly when a value is beyond I and P and SETPCAP was not effective |
| Privilege.DocumentedCaseFails | doc/cap_iab.3:97-104 | a process with SETPCAP permitted but not effective and a tuple with new inheritable values from its bounding set and no ambient ones: all that the manual page asks for, and the call fails |
| Privilege.IabGetProc | cap/iab.go:123-138 | the tuple read is the process's I, Amb and the complement of its Bset |
| Privilege.OwnTupleApplies | cap/iab.go:123-138 | a process can apply its own tuple, and stays as it is, unless it has ambient values that may not be raised again |
| Mode.GetMode | cap/convenience.go:84-128 | the scans of the ambient, bounding and flag sets classify the process |
| Mode.ModeMeans | cap/convenience.go:84-128 | for each mode exactly the processes that are reported as being in it, NOPRIV being those with locked bits and all five sets empty |
| Mode.SecuredNumbers | cap/convenience.go:19-33 | the locked combinations of secure bits are 0x2f and 0xef, and the basic test is the mask 0x2f |
| Mode.Steps | cap/convenience.go:141-181 | the steps with SETPCAP effective, and the flags they leave to be set |
| Mode.DropAll | cap/convenience.go:173-174 | the loop that drops until the kernel refuses ends and leaves no bounding value |
| Mode.SetMode | cap/convenience.go:134-181 | it succeeds exactly when SETPCAP is permitted and no lock stands against the mode's bits; nothing is effective on any way out |
| Mode.EnteredIsRecognised | cap/convenience.go:84-181 | after a mode is entered it is the mode that is reported, except that without inheritable values PURE1E is reported as PURE1E_INIT |
| Mode.EnteredNoPriv | cap/convenience.go:169-179 | after NOPRIV nothing is permitted, inheritable, ambient or in the bounding set, and the bits are locked |
| Mode.NoPrivIsFinal | libcap/cap_proc.c:468-474 | no run of later writes brings anything back after NOPRIV |
| Mode.SecuredForGood | libcap/cap_proc.c:468-474 | after any secured mode, on kernels with and without an ambient set, every run of later writes leaves the process in a secured mode |
| Mode.LessIsGranted | cap/convenience.go:136-139 | the deferred lowering of the effective flags is always granted |
| CMode.CSecure | libcap/cap_proc.c:428-436 | the ambient set is cleared and the secure bits locked, or refused exactly when a lock stands against them |
| CMode.CDropAll | libcap/cap_proc.c:443-445 | the loop over the values that the kernel knows leaves no bounding value |
| CMode.CSteps | libcap/cap_proc.c:418-459 | the steps with SETPCAP effective; a refused lock does not stop the rest of NOPRIV |
| CMode.CSetMode | libcap/cap_proc.c:405-466 | it succeeds exactly as the Go version does; on failure nothing is effective, and a failed NOPRIV of a process with SETPCAP permitted has still given up everything |
| IabTuple.SetOne | cap/iab.go:337-362 | setting one value keeps ambient within inheritable |
| IabTuple.SetAll | cap/iab.go:327-365 | setting values in order keeps ambient within inheritable also when it stops half way, and succeeds exactly when all are in range |
| IabTuple.SetMeans | cap/iab.go:337-362 | which values of which vectors a call changes: only its own value, raising an ambient value as inheritable too, lowering an inheritable one as ambient too |
| IabTuple.SetAllMeans | cap/iab.go:327-365 | a call with several values sets exactly those before the first that is out of range |
| IabTuple.FillMeans | cap/iab.go:372-399 | filling copies the flag or its complement into its vector, and touches the other vectors only to keep ambient within inheritable |
| IabTuple.EntryMeans | cap/iab.go:142-179 | an entry means what its marks say, whatever their order and number |
| IabTuple.TextOfOne | cap/iab.go:183-207 | the text of a tuple that mentions one value is its name after !, ^, !^, !% or nothing |
| IabTuple.TextOfTwo | cap/iab.go:183-207 | two mentioned values are written in order with a comma between them |
| IabTuple.Filled | cap/iab.go:372-399 | filling a vector keeps ambient within inheritable |
| IabTuple.Parsed | cap/iab.go:142-179 | every tuple read from a text has its ambient values inheritable |
| IabTuple.AmbientWithinInheritable | cap/iab.go:142-399 | after every sequence of calls, failing ones included, ambient values are inheritable |
| IabTuple.GoIabRoundTrip | cap/iab.go:183-207 | IABFromText(iab.String()) is the named part of the tuple, so the tuple itself exactly when it mentions only named values |
| IabTuple.IAB.SetVector | cap/iab.go:327-365 | the loop does what setting the values in order means |
| IabTuple.IAB.Fill | cap/iab.go:372-399 | the word loop does what filling the vector means |
| IabTuple.IAB.String | cap/iab.go:183-207 | the printer returns the text of the tuple |
| IabTuple.FromText | cap/iab.go:142-179 | the parser returns the tuple of its text, or fails exactly when the text is bad |
| CIab.Iab.SetVector | libcap/cap_flag.c:246-280 | masking or mirroring the word of one value has the same effect as the Go package's rule |
| CIab.FromText | libcap/cap_text.c:565-620 | the C parser returns the tuple that its text denotes, or fails exactly when there is none |
| CIab.CIabRoundTrip | libcap/cap_text.c:517-620 | C reads the text of a tuple as its named part, like Go |
| CIab.CEntryMeans | libcap/cap_text.c:565-620 | C reads an entry as Go does, whatever its marks, if it knows the name |
| CIab.IabFits | libcap/cap_text.c:517-559 | the text of a tuple, printed without any test for room, fits the buffer with at most 41 names and 64 values |
| CIab.ToText | libcap/cap_text.c:517-559 | the C printer writes only inside its buffer and returns the same text as the Go printer |
| ExtFormat.UsedIsLeast | cap/file.go:423-433 | the computed length is sufficient and no shorter one is |
| ExtFormat.ExternalRoundTrip | cap/file.go:364-461 | Import(c.Export()) is c exactly when the minimum length is at most four bytes a word; otherwise the import fails |
| ExtFormat.RowsDecode | cap/file.go:383-395 | as many rows as are sufficient decode to the set |
| ExtFormat.ExportedBytes | cap/file.go:413-461 | an export is 0x90 0xc2 0x01 0x51, the number of rows, and rows of an effective, a permitted and an inheritable byte, lowest values first |
| ExtFormat.RowsDecide | cap/file.go:368-398 | what follows the rows of an import is ignored, and no byte before may be missing |
| ExtCode.CountBytes | cap/file.go:423-433 | the word loop computes the least sufficient length |
| ExtCode.Export | cap/file.go:413-461 | the exported bytes are the external form, and it fails exactly for a minimum above 255 |
| ExtCode.Import | cap/file.go:368-398 | the imported set is what the bytes hold, or the import fails exactly for a bad magic, length or end |
| ExtCode.Size | libcap/cap_extint.c:39-67 | the size from the highest byte in use is the size of the external form |
| ExtCode.CopyExt | libcap/cap_extint.c:90-136 | the buffer gets the same bytes as Go writes with the minimum of eight, or stays as it was when it is too short |
| ExtCode.CSize | libcap/cap_extint.c:39-67 | C always writes 29 bytes |
| ExtCode.CopyInt | libcap/cap_extint.c:145-193 | the set is what the rows hold, rows beyond the words ignored |
| ExtCode.CopyIntCheck | libcap/cap_extint.c:201-215 | the same for bytes of any length |
| ExtCode.BothRead | cap/file.go:407-412 | C reads back every Go export whatever its minimum, and Go reads back what C wrote |
| ExtCode.GoAcceptsLess | cap/file.go:368-398 | whatever bytes Go imports C imports as the same set |
| VfsFormat.Pack | cap/file.go:206-246 | it accepts exactly the sets of two words, or of one without an owner, whose effective flags are empty or all that is permitted or inheritable; an owner changes the revision but its id is not written |
| VfsFormat.Digest | cap/file.go:81-136 | the set is what the bytes hold, or it fails exactly for a bad size, a short body or an unknown revision; with one word it indexes out of range exactly for a complete body of a two-word revision |
| VfsFormat.AttributeBytes | cap/file.go:206-246 | the bytes of an attribute: the effective flag, two zeros and the revision number, then for each word its permitted and its inheritable flags, low bytes first |
| VfsFormat.GoReadsSaved | cap/file.go:81-136 | Go reads what C saved, of every revision, with its namespace owner, effective flags being all or nothing |
| VfsFormat.DigestAccepts | cap/file.go:81-136 | Go accepts 12 to 24 bytes for revision 1, 20 to 24 for revision 2 and 24 for revision 3, and nothing else |
| VfsFormat.LoadAccepts | libcap/cap_file.c:64-100 | C accepts exactly 12, 20 and 24 bytes for the three revisions |
| VfsFormat.GoFileRoundTrip | cap/file.go:81-246 | unpacking what was packed restores the set exactly when it has no namespace owner; otherwise it fails |
| VfsFormat.Save | libcap/cap_file.c:124-207 | it accepts exactly the sets that the version can hold and whose effective flags, if any, cover the others |
| VfsFormat.Load | libcap/cap_file.c:64-122 | the set is what the record holds, or it fails exactly for a wrong number of bytes or an unknown revision |
| VfsFormat.LoadSave | libcap/cap_file.c:64-207 | loading what was saved keeps P, I and the root id and replaces non-empty E by all of P and I |
| VfsFormat.FiledAgain | libcap/cap_file.c:64-207 | saving and loading again changes nothing |
| VfsFormat.SameBytes | libcap/cap_file.c:124-207 | every set without an owner that Go can pack, of one or two words, C saves as the same bytes |
| VfsFormat.OwnerNotPacked | cap/file.go:236-246 | with an owner C saves the bytes that Go packs and four more, the owner; what Go packs C does not load |
| Words.WordExt | libcap/libcap.h:163-165 | a word is determined by its bits |
| Words.ListingRaise | libcap/libcap.h:163-163 | raising a value adds it to the set of values and nothing else |
| Words.ListingLower | libcap/libcap.h:164-164 | lowering a value removes it from the set of values and nothing else |

## Left out

- ExtCode.CopyInt: asks for a stated length that is right, as its comment does; the checking version asks for nothing.
- CTextCode.FromText: two 32-bit words and the current kernel interface; the one-word interface is not part of this model.
- PsxTrackerRuns.ForkedChildRestarts: a child of a process whose clean-up already ran is excluded, because its map is gone.
- PsxBarrierEnds.CanComplete: that there is always a way to the end, not that every scheduler takes it; signals and the spin lock interact below this model.
- PsxBarrierRuns.BarrierHolds: an id that is used again within one call is not modelled.
- Text in Go: white space is ASCII only, and the 64 KiB limit on one word is left out.
- Text in C: characters are ASCII, a table has no gaps, and allocation never fails.
- GoText.FromNameOf: numbers are unbounded, so numerals that overflow a machine word are simply out of range.
- The C versions of applying a tuple and of reporting a mode (libcap/cap_proc.c:485-533, 753-833): the same steps as in Go, so only the Go ones are modelled. One difference is not part of this model: the final restoring of the flags (libcap/cap_proc.c:826) calls cap_set_proc, so it ignores the system-call functions it was given, and its result is discarded.
- ClauseAgreement.TextsAgree: one way only for whole texts, because a later clause can mask a difference; for single clauses both ways are proved.
- PsxTrackerEnds.WaitingCallerCanStart: that a waiting caller can be served, not that it is served in the end; the spin lock is not fair.
- PsxTrackerRuns.CallsRunTheBarrier: the report of a mismatch (psx/psx.c:456-496) and the sensitivity level are not modelled, they change nothing that is.
- cap_iab_fill, cap_set_flag, cap_fill_flag, cap_compare and Cf: the same word loops as the ones modelled.
- setUID, setGroups and what the kernel does to capabilities when user ids change.
- Secure bits beyond the eight of the header, and no-new-privileges, which nothing here reads.
- The launcher's chroot, environment, callbacks and error pipe.
- System calls themselves, extended attributes, directory reading and signal delivery: environment.
- The mutexes inside Set, IAB and cap_t, magic-number checks and allocation.
- The command-line tools, the PAM module, the executable-library start-up code and the generated name table.
