# ECR timing: a verified model

ECR measures how long instructions take inside a virtual machine. Its kernel module times
each instruction twice: with the wall clock, and with a second thread that counts the NOPs
it executes meanwhile. A shell script reads the results back from the kernel log by name,
averages them over fifteen rounds, and flags the instructions that probably cause VM exits.

The model follows a result from where it is produced to where it is judged.

- `NopMachine`, `Handshake`, `SeqSpec`, `Refinement`, `Progress`: the NOP thread, the INSTR
  thread and the controller over their shared globals, one shared access, log record or
  measured call per step, under an arbitrary schedule; and the sequential specification
  that every schedule refines.
- `Plans`: what the two INSTR threads measure, against the script's two lists of names.
- `Dmesg`, `RoundTrip`: the log as text, and the script's lookups by name.
- `Statistics`, `Classify`, `Pipeline`: the script's arithmetic in signed 64-bit integers,
  its collection loops, its flags, and the path from ioctls and
  schedules to flags.
- `WallTimer`, `Driver`, `CacheTimer`: the wall-clock macros and their interrupt bracket,
  the ioctl dispatcher with its buffer, and the cache probe's fixed-width arithmetic.

Code that updates state in place (the threads, the dispatcher, the timers, the script's
loops) is modelled by classes and loops, each tied by its contract to a function; the
theorems are about those functions.

How the main results fit together: `Refinement.RefinesSequentialTiming` says that the
interleaved machine takes only steps of `SeqSpec`; `SeqSpec.SpecKeeps` says what such steps
keep (plan order, guards, exact and disjoint windows, and a log in which a run's banner and
its entries stand together); `Refinement.PrintedCountIsExact` and `Refinement.RunIsUnbroken`
read the counts and the log off the schedule, so they do not rest on the observer `Hist`,
which the machine never reads (`Refinement.ObserverIsPassive`);
`Progress.CallReturnsIffNeverStuck` and `Progress.KilledCallReturnsIff` say exactly when a
call ends; `Handshake.RunsWhatWasAsked` ties each run to the request that started it;
`RoundTrip.NopParseReturnsMeasuredCount` takes a count through the log text;
`Pipeline.FlagComparesMeasurements` and `Pipeline.FlagWithoutReferences` take it to the
printed flag. The lemmas of `Handshake` about a thread that runs undisturbed say what its
statements amount to together, from any state whatever.

What the model takes as given:

- Shared variables are accessed one at a time in a single order, and the compiler leaves
  the accesses where they are written.
- Ioctls are issued one after another. What other ioctls log between two NOP runs is
  arbitrary, as long as it is the module's own kind of message.
- Each `pr_info` is one log record, and only the module's records follow its insertion.
- `kthread_stop` waits until the thread has exited, and returns at once if it already has.
- The number of online CPUs, pending kill signals, the success of thread creation, the
  clock and counter readings, the allocator's answer and the content of the buffer are
  decided by the environment, freely, at each use.
- Instruction names are letters, digits and underscores, so that a name used as a grep
  pattern stands for itself.

Where the code and its own text differ, the code is followed. The comment at
`nop_timer.c:32` says that the NOP thread runs until module cleanup; it is stopped at the
end of every call of `nop_timing_start`. The script lists INVPCID, which the module does not
measure: it yields no samples, counts as measured at zero, and is flagged only against
references below zero (`Classify.UnmeasuredFlagIff`). A zero logged for an unmeasured entry
stands on the label's own line, but `nop_parse` reads the next line; what it returns then
is stated by `RoundTrip.NopParseOfUnmeasured` for every log. The midpoint that
`evaluate_exiting` compares with (`ecr.sh:127-132`) is not the midpoint once a difference
wraps; `Classify.VoteMeansAboveMidpointIff` says exactly when the vote is still right.

## Model

| member | source | states |
|---|---|---|
| `NopMachine.NopTimer.constructor` | nop_timer.c:23-28 | A freshly inserted module: zero globals, no threads |
| `NopMachine.NopTimer.NopStep` | nop_timer.c:30-54 | The whole new state after one statement of the NOP thread, and which fields it may touch |
| `NopMachine.NopTimer.MeasureStep` | nop_timer.h:26-32 | The new state after one step of the reset handshake or the call loop |
| `NopMachine.NopTimer.ReportStep` | nop_timer.h:33-38 | The new state after one step of the label, the print handshake, or the zero record |
| `NopMachine.NopTimer.BracketStep` | instructions.h:30-35 | The new interrupt state after one step of the interrupt bracket |
| `NopMachine.NopTimer.EnterMacro` | nop_timer.h:40-53 | Where the suspend, feature and buffer guards send the INSTR thread |
| `NopMachine.NopTimer.LeaveMacro` | nop_timer.h:40-41 | Whether a bracket's epilogue is still to run when a measurement ends |
| `NopMachine.NopTimer.InstrStep` | nop_timer.c:56-115 | The new state after one step of either INSTR thread |
| `NopMachine.NopTimer.ReinitStep` | nop_timer.c:118-121 | Each global is reinitialised by its own statement |
| `NopMachine.NopTimer.SetupStep` | nop_timer.c:118-137 | Reinitialisation, thread creation, and waking only if both threads exist |
| `NopMachine.NopTimer.CtrlStep` | nop_timer.c:117-147 | One step of the controller, from taking a request through setup, waiting, stopping and joining |
| `NopMachine.NopTimer.Run` | nop_timer.c:30-147 | Executing any interleaving in place gives the state that the step function assigns to it |
| `Handshake.NextKeeps` | nop_timer.c:30-147 | Every step of every thread keeps the flags, phases, plan position and interrupt state consistent |
| `Handshake.Reachable` | nop_timer.c:30-147 | Hence they are consistent in every reachable state, kill signals included |
| `Handshake.RunsWhatWasAsked` | nop_timer.c:117-129 | In every schedule the job that runs is that of the latest request taken while no call was active, its plan and its buffer |
| `Handshake.BracketAlone` | instructions.h:30-35 | From any state, the bracket's two opening statements switch interrupts off and save what was, and its two closing ones restore that and then switch them on |
| `Handshake.SpinObeysStop` | nop_timer.h:29-35 | From any state, a spin ends within two steps once INSTR is told to stop |
| `Handshake.FinishAlone` | nop_timer.c:96-97 | `finish` is visible before INSTR has exited |
| `Handshake.ReinitAlone` | nop_timer.c:118-121 | Whatever the globals held, the four opening statements clear them and touch nothing else |
| `Handshake.CreateAlone` | nop_timer.c:124-137 | Then both threads exist, not told to stop, and are woken only if both creations succeeded |
| `Handshake.UndisturbedPass` | nop_timer.c:33-50 | The NOP thread's statements make up one pass: reset if asked, print if asked, count one, back to the start |
| `Handshake.EachPassCountsOnce` | nop_timer.c:33-50 | In every schedule, passes entered are increments, passes ended by a kill signal, and the one in progress |
| `Handshake.RequestsExclusive` | nop_timer.c:38-46 | Reset and print requests exclude each other, are served only while INSTR waits at the matching spin, and are absent during measured calls and after finish |
| `Handshake.SpinsEndWhenServed` | nop_timer.h:29-35 | INSTR leaves a spin only because its request was served, never because it was told to stop |
| `Handshake.StopsFollowFinish` | nop_timer.c:139-146 | A stop is requested only after finish, when the whole plan has been executed |
| `Handshake.BothAreStopped` | nop_timer.c:143-146 | Conversely each thread is told to stop before the call waits for its end, and both before it returns |
| `Handshake.InterruptDiscipline` | instructions.h:30-35 | Interrupts are off at each suspended call, on at each plain call, on between entries and at the end, on the measured and the single-CPU path |
| `Handshake.LogIsOutput` | nop_timer.c:117-147 | A continuation's log is the earlier log followed by what its steps append |
| `Handshake.AlikeStep` | nop_timer.c:117-147 | Two machines set up for the same run stay indistinguishable and append the same |
| `Handshake.ReinitialisedAtRest` | nop_timer.c:117-128 | Globals are reinitialised and threads created only when no thread of an earlier call is live |
| `Handshake.CallIndependentOfHistory` | nop_timer.c:117-147 | The same call under the same schedule logs the same records after any two histories |
| `SeqSpec.SpecKeeps` | nop_timer.c:62-96 | Every specification step keeps plan order, guards, exact counts, disjoint windows, and the run's records in one piece: its banner, then its entries' events, then only what is logged after the run |
| `SeqSpec.MatchedEvent` | nop_timer.h:26-53 | In a run, each entry whose feature is present has its event: measured with all its calls if its guards held and no CPU test failed, zero if it lacked its buffer |
| `SeqSpec.MatchedEntry` | nop_timer.c:62-94 | Conversely each event belongs to an entry of the plan, with all its calls, and without a failed CPU test is a measurement exactly if the entry's guards held |
| `SeqSpec.CountBounds` | nop_timer.c:44-49 | An unwrapped count is at least the increments during the calls and exceeds those up to the print request by at most one; it is the true difference exactly when below 2^64 |
| `Refinement.ObserverIsPassive` | nop_timer.c:30-147 | Observing the machine does not change it |
| `Refinement.ObserverCountsIncrements` | nop_timer.c:47-49 | The observer's clock is the number of increments executed in the schedule |
| `Refinement.ObserverTellsTime` | nop_timer.h:28-35 | The observed window consists of the times of the latest request, reset, call loop and print request in the schedule |
| `Refinement.ObserverTellsCpus` | nop_timer.h:27 | The observer's mark of a single CPU means that a CPU test of the latest run in the schedule failed |
| `Refinement.QuietNop` | nop_timer.c:33-50 | A NOP step that prints nothing is invisible to the specification |
| `Refinement.EmitMeasures` | nop_timer.c:43-44 | Printing a count is the specification's measurement of the current entry |
| `Refinement.QuietBody` | nop_timer.h:26-38 | INSTR's own steps within a measurement are invisible |
| `Refinement.BannerAnnounces` | nop_timer.c:63-106 | Printing the banner is the specification's announcement of the run, and its only message |
| `Refinement.ZeroDeclines` | nop_timer.h:36-53 | A zero record is the specification's refusal to measure the entry |
| `Refinement.QuietCtrl` | nop_timer.c:117-147 | The controller is invisible during a call, and its return is the specification's end of the run |
| `Refinement.SysKeeps` | nop_timer.c:30-147 | Every step keeps the log and the window under construction right, and is a specification step |
| `Refinement.ReachableSys` | nop_timer.c:30-147 | So it is in every reachable state |
| `Refinement.PrintedCountIsExact` | nop_timer.c:38-49 | From the schedule alone: the count about to be printed is the increments since the reset that this request caused, modulo 2^64, with at most one increment of delay at either end, and all the entry's calls were made in between |
| `Refinement.PrintRecordsItsWindow` | nop_timer.c:43-46 | The value printed joins the label just before it, and the event recorded carries that count and window |
| `Refinement.RefinesSequentialTiming` | nop_timer.c:30-54 | Every interleaving refines the sequential specification up to stuttering |
| `Refinement.LogIsSequential` | nop_timer.h:33-37 | At every moment the log is the events so far plus at most one label awaiting its value |
| `Refinement.RunIsUnbroken` | nop_timer.c:62-96 | From a run's banner to the return of its call, the log ends with that banner followed by the records of its entries alone |
| `Refinement.FinishedRunIsComplete` | nop_timer.c:96-112 | Once finish is set the log is what preceded the run, its banner, the whole plan in order, and what was logged after the call; nothing is pending |
| `Refinement.EveryValueIsAMeasurement` | nop_timer.c:43-46 | Every value in the log directly follows its own label and is the count of a recorded window |
| `Progress.StepProgress` | nop_timer.c:30-147 | Every step, kills and failed creations included, comes closer to the end of the call, waits for the same thread, or gets the call stuck; the awaited thread's step does not wait |
| `Progress.CallReturnsIffNeverStuck` | nop_timer.c:117-147 | Under fair scheduling a call returns exactly if it never gets stuck, for any history, plan, CPU tests, kill signals and outcome of thread creation |
| `Progress.CallReturns` | nop_timer.c:117-147 | In particular every call returns whose threads are created and not killed |
| `Progress.KilledCallReturnsIff` | nop_timer.c:35-36 | A call whose NOP thread sees a kill signal returns if INSTR has nothing left to ask of it at that moment, and, unless a CPU test fails later, only then |
| `Progress.SpinServedWithinTwoPasses` | nop_timer.h:29-35 | After any history, a spin ends within seven steps of a NOP thread that is not killed, whatever else is scheduled |
| `Progress.KillSilencesNop` | nop_timer.c:35-36 | After a kill signal that the NOP thread sees, until the call returns, nothing is counted, no request is served and no value is printed, whatever INSTR and the polling controller do |
| `Progress.FailedCreationNeverReturns` | nop_timer.c:124-142 | If a thread could not be created, neither is woken and the call waits for ever |
| `Progress.StuckForever` | nop_timer.c:35-142 | A call whose threads were never woken, or whose NOP thread was killed while INSTR waits, never returns |
| `Progress.KillCanStick` | nop_timer.c:35-36 | Such calls occur: after any history, a kill seen before the first entry's reset request stops the call for ever |
| `Plans.StandardPlanCoversScript` | nop_timer.c:62-94 | `instr_f` measures each name of the script's standard list exactly once, save INVPCID, and nothing else |
| `Plans.StandardPlanGuards` | nop_timer.c:62-94 | Each a hundred times, MOV_* with interrupts suspended, RDRAND and RDSEED by feature, MOVNT* by buffer |
| `Plans.FlushPlanCoversScript` | nop_timer.c:101-110 | `buffer_flush_instr_f` measures the script's flush list once, in order |
| `Plans.FlushPlanGuards` | nop_timer.c:108-110 | Each a hundred times, CLFLUSH alone by buffer |
| `Dmesg.Decimal` | nop_timer.c:44 | Printed numbers are non-empty strings of digits |
| `Dmesg.NumberOfDecimal` | nop_timer.c:44 | Reading a printed number gives the number |
| `Dmesg.KeySelects` | ecr.sh:63-75 | The script's key for a name selects that name's records and no other line |
| `Dmesg.GrepFinds` | ecr.sh:64-72 | The lookup finds the last record of the name |
| `Dmesg.WallParseReturnsLatest` | ecr.sh:63-68 | `wall_parse` returns the digits of the latest wall-clock record of the name, or nothing |
| `Dmesg.NopParseReadsNext` | ecr.sh:70-75 | `nop_parse` returns the last word of the record after the latest record of the name, whatever that record is |
| `RoundTrip.SourcePlansAreGood` | nop_timer.c:63-110 | No instruction name of either INSTR thread can be mistaken for another |
| `RoundTrip.LogStaysGood` | nop_timer.h:33-37 | The log stays readable by name through every schedule |
| `RoundTrip.LastNopIsLatest` | ecr.sh:71-72 | The record that a lookup finds is that of the latest event of the name |
| `RoundTrip.NopParseReturnsMeasuredCount` | ecr.sh:70-75 | After any completed runs, `nop_parse` returns the count of the name's latest measurement |
| `RoundTrip.NopParseOfUnmeasured` | nop_timer.h:37-52 | For an unmeasured entry it returns nothing before a measured one and otherwise the next record's last word; it returns 0 exactly if nothing follows, another unmeasured entry, or a message ending in 0 |
| `RoundTrip.FlushWithoutBufferReadsEmpty` | nop_timer.c:108-110 | After every buffer-flush run requested without a buffer and without a failed CPU test, CLFLUSH is read as nothing |
| `RoundTrip.LastZeroIsOvertaken` | nop_timer.c:94-96 | The zero of a requested plan's last entry is read as 0 until the next message is logged, then as that message's last word |
| `RoundTrip.CompletedRunIsReadBack` | ecr.sh:314-318 | After a run in whose schedule no CPU test failed, each requested entry whose guards held is read back as a count of that run over all its calls |
| `RoundTrip.StandardRunIsReadBack` | nop_timer.c:62-96 | In particular each name of the script's standard list, save INVPCID, as a count over a hundred calls |
| `RoundTrip.PlannedMeasurements` | nop_timer.c:62-110 | In every schedule of either plan, interrupts are off exactly at the MOV_* calls and each printed count spans a hundred calls |
| `RoundTrip.WallParseReturnsLatestRun` | ecr.sh:307-312 | Wall-clock results logged between NOP runs are read back from the same log |
| `Statistics.Average` | ecr.sh:93-105 | The loop computes the truncated quotient of the wrapped sum |
| `Statistics.Variance` | ecr.sh:107-122 | The loop computes the truncated quotient of the wrapped sum of squared distances |
| `Statistics.AverageExactIff` | ecr.sh:93-105 | The average is the true one exactly when the sum fits 64 bits |
| `Statistics.VarianceExactIff` | ecr.sh:107-122 | The variance is the true one exactly when the sum of squares fits 64 bits |
| `Statistics.SumAdds` | ecr.sh:96-115 | Sums and sums of squares add up, each sample counting for itself |
| `Statistics.OrderIndependent` | ecr.sh:93-122 | Neither result depends on the order of the rounds |
| `Statistics.AverageBetween` | ecr.sh:93-105 | The average lies between the samples' bounds; for non-negative samples sum - n < n*avg <= sum |
| `Statistics.AverageMonotone` | ecr.sh:93-105 | Raising samples never lowers the average |
| `Statistics.NoSamples` | ecr.sh:100-119 | Without samples both results are 0 |
| `Statistics.ConstantSamples` | ecr.sh:93-122 | Constant samples give that constant and variance 0 |
| `Statistics.SpreadIdentity` | ecr.sh:107-122 | n times the spread about any centre is n times the squares, minus the squared sum, plus the squared remainder |
| `Statistics.SpreadBound` | ecr.sh:107-122 | Samples in [0, R] have spread at most n*R^2/4 + n about their truncated average |
| `Statistics.SpreadGrows` | ecr.sh:111-116 | Partial sums of squares only grow |
| `Statistics.VarianceNeverOverflows` | ecr.sh:107-122 | The accumulator is exact at every iteration whenever that bound fits |
| `Statistics.WallVarianceNeverOverflows` | ecr.sh:307-312 | So it is for fifteen wall-clock samples below 10^9, although fifteen squares of 10^9 would overflow |
| `Statistics.VarianceWithinOne` | ecr.sh:107-122 | The reported variance is the true population variance rounded down, or that plus one |
| `Statistics.VarianceCanExceedFloor` | ecr.sh:107-122 | The extra one occurs |
| `Classify.CountsSurvive` | ecr.sh:322-326 | Words printed from counts become those counts as samples |
| `Classify.SamplesAdd` | ecr.sh:323-326 | Each word counts for itself as a sample, an empty one for nothing |
| `Classify.IdentifiersCountAsZero` | ecr.sh:98-99 | A name read in place of a number is a sample of value zero |
| `Classify.ReadWall` | ecr.sh:309-312 | One round appends each name's wall-clock answer |
| `Classify.ReadNop` | ecr.sh:315-318 | One round appends each name's NOP answer |
| `Classify.Collect` | ecr.sh:307-319 | After all rounds each name holds its answers in round order |
| `Classify.Reduce` | ecr.sh:322-331 | Each name gets its average, and its variance about that average |
| `Classify.FlagAll` | ecr.sh:333-339 | Each name gets its flag against the same references |
| `Classify.Flags` | ecr.sh:307-339 | The rounds' logs determine every flag, with references that are not listed counting as 0, and every variance |
| `Classify.VoteMeansAboveMidpointIff` | ecr.sh:127-132 | For all 64-bit averages: the vote agrees with twice the average exceeding the two references exactly if no difference wraps, or one does and the average is at least 2^63 from the midpoint |
| `Classify.VoteCanWrap` | ecr.sh:127-132 | The wrong vote occurs with averages of printable counts |
| `Classify.FlagMeansMidpoints` | ecr.sh:124-138 | The flag is X, ? or empty exactly as both, one or no midpoint is exceeded |
| `Classify.RaisingSamplesNeverLowersFlag` | ecr.sh:93-138 | With the references fixed, raising samples never lowers a flag |
| `Classify.UnmeasuredFlagIff` | ecr.sh:124-138 | An instruction without samples is flagged exactly in the dimensions whose reference averages sum below zero, XOR's not being the least integer |
| `Classify.UnmeasuredNeverFlagged` | ecr.sh:124-138 | So never when the references are not negative |
| `Pipeline.AverageIsOfMeasuredCounts` | ecr.sh:307-328 | The average classified is that of exactly the counts the NOP thread printed, each the length of its own window |
| `Pipeline.AverageIsOfLoggedTimes` | ecr.sh:307-327 | Likewise the wall-clock average is that of the logged times |
| `Pipeline.VariancesOfMeasurements` | ecr.sh:329-330 | The printed variances are those of what was measured, rounded down or that plus one |
| `Pipeline.FlagComparesMeasurements` | ecr.sh:307-339 | With the instruction, CPUID and XOR measured in every round, under any interleavings, the flag is X, ? or empty exactly as the measured averages exceed the references' midpoint in both ways, one or none |
| `Pipeline.FlagWithoutReferences` | ecr.sh:124-138 | With neither CPUID nor XOR listed, the flag is X, ? or empty exactly as both, one or none of the measured averages is positive |
| `Pipeline.FlagWithOneReference` | ecr.sh:124-138 | With one of the two listed, twice each average is compared with that reference alone |
| `Pipeline.FlushFlags` | ecr.sh:58-60 | So the flush list, which names neither, is flagged by positive averages |
| `Pipeline.OvertakenCountsAsZero` | ecr.sh:70-75 | A zero overtaken by a message that ends in a word counts as a zero sample in every round, and leaves the flag to the wall-clock time |
| `Pipeline.ReleaseIsAWord` | main.c:46 | The message logged when the device is closed ends in such a word |
| `Pipeline.WallRunIsTimed` | wall_timer.c:23-64 | After any history, a wall-clock run leaves as each logged name's sample its elapsed time modulo one second, or zero without its buffer |
| `Pipeline.StandardWallRun` | wall_timer.c:31-61 | Each listed name, save INVPCID, is timed by its only entry over a hundred calls, with interrupts off exactly for MOV_*, and leaves that time |
| `Pipeline.IoctlsMeasureLists` | main.c:62-103 | The two NOP-timing ioctls measure the script's two lists, with a buffer exactly if one was allocated that can be aligned |
| `WallTimer.NsecIsElapsedModSecond` | wall_timer.h:31 | The nanosecond field of the difference is the elapsed time modulo one second |
| `WallTimer.ReportExactIffUnderASecond` | wall_timer.h:31-32 | It is the elapsed time exactly when that is under a second |
| `WallTimer.Timer.TimingLoop` | wall_timer.h:25-32 | One measurement reads the clock, makes all its calls, reads the clock again, and logs the elapsed time modulo one second |
| `WallTimer.Timer.Measure` | wall_timer.h:34-47 | Each guarded macro logs, reads the clock and calls as its guard says and leaves interrupts on |
| `WallTimer.Timer.CpuidTestSupport` | instructions.c:23-39 | The message about VMX follows bit 5 of ecx |
| `WallTimer.SupportIsBitFive` | instructions.c:34 | Whatever the other bits of ecx are |
| `WallTimer.Timer.WallTimingStart` | wall_timer.c:23-64 | A standard run logs the CPU's support, its banner and every entry in plan order, and ends with interrupts on |
| `WallTimer.Timer.BufferFlushStart` | wall_timer.c:66-76 | A buffer-flush run does the same without the CPU's support |
| `WallTimer.EachEntryIsTimed` | wall_timer.h:25-47 | A run is its entries' measurements back to back in plan order: clock, exactly the entry's number of calls with its macro's interrupt state, clock; an unavailable entry does nothing |
| `WallTimer.EveryCallIsBracketed` | instructions.h:30-35 | Each call of a run belongs to an available entry and sees interrupts off exactly if it is suspended |
| `WallTimer.LatestInRun` | wall_timer.h:25-47 | The last wall-clock record of a name is that of the run's last entry of the name |
| `WallTimer.WallRunIsReadBack` | ecr.sh:63-68 | `wall_parse` after a run returns the entry's elapsed time modulo one second, or 0 without its buffer |
| `Driver.Device.constructor` | main.c:33-34 | No buffer at first |
| `Driver.Device.Ioctl` | main.c:52-106 | Outcome and new state of each command |
| `Driver.AndBits` | main.c:86 | The model's `&` conjoins each bit |
| `Driver.MaskIsRounding` | main.c:86 | On every 64-bit word, `& ~0x0F` subtracts the remainder by 16 |
| `Driver.AlignUpIsLeastIff` | main.c:86 | Alignment gives the least multiple of 16 not below the address, exactly when it does not wrap |
| `Driver.GuardsAgreeIff` | main.c:70-94 | The guards on the raw and the aligned address agree exactly when alignment does not wrap |
| `Driver.BufferIsFirstAllocation` | main.c:82-94 | After any ioctls the buffer is the first successful allocation |
| `Driver.BufferNeverChanges` | main.c:84-87 | Once allocated it never changes |
| `Driver.GuardsAgreeInEveryState` | main.c:70-94 | The dispatcher's guard and the macros' guard agree after any ioctls, exactly when that allocation can be aligned |
| `Driver.KmallocOutcome` | main.c:82-105 | After any ioctls, an allocation request succeeds, is refused or dereferences null exactly as the buffer there is then, its alignment and the words read say |
| `Driver.OtherOutcomes` | main.c:56-105 | After any ioctls, only unknown commands are invalid, cache and memory timing succeed exactly if they start a run, which takes a buffer, and all others succeed |
| `Driver.RunsFollowRequests` | main.c:58-103 | Any ioctls start exactly the runs they ask for, in order, less the cache and memory runs asked for before there was a buffer |
| `Driver.GatedRunsNeedBuffer` | main.c:68-81 | Cache and memory timing are refused exactly while there is no buffer |
| `CacheTimer.DifferenceIsElapsed` | cache_timer.c:22-38 | The low-word difference is the elapsed cycles modulo 2^32, across a wrap, and exact below 2^32 |
| `CacheTimer.Handler` | cache_timer.c:50-68 | The loop computes the truncated quotient of the wrapped total |
| `CacheTimer.TotalAdds` | cache_timer.c:55-60 | The total adds up the probes' differences |
| `CacheTimer.EachProbeCounts` | cache_timer.c:55-60 | Changing one probe changes the total by the difference of the two |
| `CacheTimer.ReportTruncates` | cache_timer.c:52-62 | In every case the report is the truncated quotient of the int congruent to the total |
| `CacheTimer.AverageExactIff` | cache_timer.c:55-62 | The report is the floor mean exactly when the total fits an int |
| `CacheTimer.SmallProbesAverageExactly` | cache_timer.c:50-65 | Probes of at most 21474836 cycles are accumulated exactly at every iteration and their mean lies between them |

## Left out

- The assembly wrappers in `instructions.c`: a measured call is one step that takes any time and touches no modelled state.
- Memory timing (`memory_timer.c`) and the lookups of cache and memory results: the same subtraction and simple field extraction.
- Command-line handling, module insertion and removal, result tables and CSV files: shell input and output.
- Finding the module's last insertion in dmesg by its time stamp: the modelled log starts there.
- `kthread_bind`, the null and content tests on thread pointers, and error pointers returned by `kthread_create`: creation either succeeds or leaves both threads asleep.
- Several ioctls at the same time, reordering of the unsynchronised flags by compiler or CPU, and memory safety of the probes.
- Words that are neither decimal numbers nor names: shell arithmetic reads 0x and leading-zero numerals in other bases and stops at punctuation; the script's log lookups meet them only behind a message that overtakes a zero. No variable of the script with the name of such a word is modelled.
